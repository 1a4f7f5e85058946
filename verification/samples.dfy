/** Grid points of the Simpson integrator and the step that refines a grid. */
module Samples {
  import opened Wrappers

  /** One evaluated grid point: its position, the integrand's value there and its Simpson weight. */
  datatype Pt = Pt(x: real, f: real, wt: real)

  /** Why an integration request produced no number. */
  datatype Failure =
    | ParseFailure(message: string)              // an endpoint text did not parse
    | EvalFailure(message: string)               // the integrand failed at an endpoint
    | MidpointFailure(at: real, message: string) // failed at a new point; `at` is its LEFT neighbour
    | MissingEndpoint                            // popping the final endpoint found nothing

  /** The integrand, as the external expression evaluator sees it. */
  type Evaluator = real -> Result<real, string>

  /** What one point adds to the Simpson sum: f * wt. */
  function Contribution(p: Pt): real
  {
    p.f * p.wt
  }

  /** Sum of f * wt over a grid, accumulated left to right. */
  function WeightedSum(pts: seq<Pt>): real
    decreases |pts|
  {
    if |pts| == 0 then 0.0
    else WeightedSum(pts[..|pts| - 1]) + Contribution(pts[|pts| - 1])
  }

  /** The weights the integrator keeps on its working grid: 0.5 first, then 2 at odd and 1 at even positions. */
  predicate WeightPattern(g: seq<Pt>)
  {
    && |g| > 0
    && g[0].wt == 0.5
    && forall j :: 0 < j < |g| ==> g[j].wt == (if j % 2 == 1 then 2.0 else 1.0)
  }

  /** Point j sits j steps of width h to the right of point 0. */
  predicate Uniform(g: seq<Pt>, h: real)
  {
    forall j :: 0 <= j < |g| ==> g[j].x == g[0].x + j as real * h
  }

  /** Every point carries the same function value c. */
  predicate AllValues(g: seq<Pt>, c: real)
  {
    forall j :: 0 <= j < |g| ==> g[j].f == c
  }

  /** Every old point's right-hand new point can be evaluated. */
  predicate AllEvaluate(pts: seq<Pt>, dx: real, eval: Evaluator)
  {
    forall i :: 0 <= i < |pts| ==> eval(pts[i].x + dx).Ok?
  }

  /**
   * Reference scan from the left: the failure at the first point whose right-hand new
   * point cannot be evaluated, reported at that old point's position.
   */
  function FirstFailure(pts: seq<Pt>, dx: real, eval: Evaluator): (r: Option<Failure>)
    ensures r.Some? ==> r.value.MidpointFailure?
    decreases |pts|
  {
    if |pts| == 0 then None
    else
      match eval(pts[0].x + dx)
      case Err(m) => Some(MidpointFailure(pts[0].x, m))
      case Ok(_) => FirstFailure(pts[1..], dx, eval)
  }

  /**
   * One pass of the `for mut pt in pts` loop: each old point is kept with weight 1 and
   * is followed by a new point dx to its right, weight 2. The first evaluation failure,
   * scanning left to right, aborts and reports the old point's position.
   */
  function Refine(pts: seq<Pt>, dx: real, eval: Evaluator): (r: Result<seq<Pt>, Failure>)
    ensures r.Ok? <==> AllEvaluate(pts, dx, eval)
    ensures r.Ok? ==> |r.value| == 2 * |pts|
    ensures r.Err? ==> FirstFailure(pts, dx, eval) == Some(r.error)
    decreases |pts|
  {
    if |pts| == 0 then Ok([])
    else
      var init := pts[..|pts| - 1];
      var last := pts[|pts| - 1];
      PrefixFacts(pts, dx, eval);
      match Refine(init, dx, eval)
      case Err(e) => Err(e)
      case Ok(g) =>
        match eval(last.x + dx)
        case Err(m) =>
          FirstFailureNoneIff(init, dx, eval);
          Err(MidpointFailure(last.x, m))
        case Ok(f) => Ok(g + [last.(wt := 1.0), Pt(last.x + dx, f, 2.0)])
  }

  /** How evaluability and the first failure of a grid relate to those of the grid without its last point. */
  lemma PrefixFacts(pts: seq<Pt>, dx: real, eval: Evaluator)
    requires |pts| > 0
    ensures var init := pts[..|pts| - 1];
      && (AllEvaluate(pts, dx, eval) <==> AllEvaluate(init, dx, eval) && eval(pts[|pts| - 1].x + dx).Ok?)
      && FirstFailure(pts, dx, eval) ==
           if FirstFailure(init, dx, eval).Some? then FirstFailure(init, dx, eval)
           else if eval(pts[|pts| - 1].x + dx).Err? then Some(MidpointFailure(pts[|pts| - 1].x, eval(pts[|pts| - 1].x + dx).error))
           else None
  {
    var init := pts[..|pts| - 1];
    assert forall i :: 0 <= i < |init| ==> init[i] == pts[i];
    FirstFailureSnoc(init, pts[|pts| - 1], dx, eval);
    assert init + [pts[|pts| - 1]] == pts;
  }

  /** Appending a point to the right only matters to the left scan when nothing before it failed. */
  lemma {:induction false} FirstFailureSnoc(init: seq<Pt>, last: Pt, dx: real, eval: Evaluator)
    ensures FirstFailure(init + [last], dx, eval) ==
              if FirstFailure(init, dx, eval).Some? then FirstFailure(init, dx, eval)
              else if eval(last.x + dx).Err? then Some(MidpointFailure(last.x, eval(last.x + dx).error))
              else None
    decreases |init|
  {
    if |init| > 0 {
      FirstFailureSnoc(init[1..], last, dx, eval);
      assert (init + [last])[1..] == init[1..] + [last];
    }
  }

  /** The left scan finds nothing exactly when every new point evaluates. */
  lemma {:induction false} FirstFailureNoneIff(pts: seq<Pt>, dx: real, eval: Evaluator)
    ensures FirstFailure(pts, dx, eval).None? <==> AllEvaluate(pts, dx, eval)
    decreases |pts|
  {
    if |pts| > 0 {
      FirstFailureNoneIff(pts[1..], dx, eval);
      assert forall i :: 0 < i < |pts| ==> pts[1..][i - 1] == pts[i];
    }
  }

  /**
   * What a successful refinement holds: old point i at position 2i with weight 1, and at
   * 2i + 1 a new point dx to its right, weight 2, carrying the integrand's value there.
   */
  lemma {:induction false} RefineContents(pts: seq<Pt>, dx: real, eval: Evaluator)
    requires Refine(pts, dx, eval).Ok?
    ensures var g := Refine(pts, dx, eval).value;
      forall j :: 0 <= j < |g| ==>
        if j % 2 == 0 then g[j] == pts[j / 2].(wt := 1.0)
        else g[j].x == pts[j / 2].x + dx && g[j].wt == 2.0 && eval(g[j].x) == Ok(g[j].f)
    decreases |pts|
  {
    if |pts| > 0 {
      var init := pts[..|pts| - 1];
      RefineContents(init, dx, eval);
      assert forall i :: 0 <= i < |init| ==> init[i] == pts[i];
    }
  }

  /** Refinement one point further: the prefix's grid followed by the kept point and its new neighbour. */
  lemma RefineExtends(pts: seq<Pt>, dx: real, eval: Evaluator, i: nat, g: seq<Pt>, f: real)
    requires i < |pts|
    requires Refine(pts[..i], dx, eval) == Ok(g)
    requires eval(pts[i].x + dx) == Ok(f)
    ensures Refine(pts[..i + 1], dx, eval) == Ok(g + [pts[i].(wt := 1.0), Pt(pts[i].x + dx, f, 2.0)])
  {
    assert pts[..i + 1][..i] == pts[..i];
  }

  /** Adding point i to the prefix before it adds its f * wt to the sum. */
  lemma WeightedSumExtends(pts: seq<Pt>, i: nat)
    requires i < |pts|
    ensures WeightedSum(pts[..i + 1]) == WeightedSum(pts[..i]) + Contribution(pts[i])
  {
    assert pts[..i + 1][..i] == pts[..i];
  }

  /** If the prefix refines and point i then fails, the whole refinement fails there. */
  lemma {:induction false} RefineStopsAt(pts: seq<Pt>, dx: real, eval: Evaluator, i: nat, g: seq<Pt>, m: string)
    requires i < |pts|
    requires Refine(pts[..i], dx, eval) == Ok(g)
    requires eval(pts[i].x + dx) == Err(m)
    ensures Refine(pts, dx, eval) == Err(MidpointFailure(pts[i].x, m))
    decreases |pts|
  {
    if |pts| == i + 1 {
      assert pts[..|pts| - 1] == pts[..i];
    } else {
      var init := pts[..|pts| - 1];
      assert init[..i] == pts[..i];
      RefineStopsAt(init, dx, eval, i, g, m);
    }
  }

  /** Coefficient of sample j in the extended Simpson formula over n intervals: 1, 4, 2, 4, ..., 4, 1. */
  function Coeff(j: nat, n: nat): real
  {
    if j == 0 || j == n then 1.0 else if j % 2 == 1 then 4.0 else 2.0
  }

  /** Sum of Coeff(j, n) * ys[j] over the indices j of ys. */
  function SimpsonTerms(ys: seq<real>, n: nat): real
    decreases |ys|
  {
    if |ys| == 0 then 0.0
    else SimpsonTerms(ys[..|ys| - 1], n) + Coeff(|ys| - 1, n) * ys[|ys| - 1]
  }

  /**
   * The extended Simpson formula (h/3)(y0 + 4y1 + 2y2 + ... + 4y(n-1) + yn) on samples ys,
   * spacing h. With an even number n of intervals this is the composite Simpson rule; on a
   * single interval it is (h/3)(y0 + y1), two-thirds of the trapezoid rule (SimpsonOneInterval).
   */
  function Simpson(ys: seq<real>, h: real): real
    requires |ys| > 0
  {
    h / 3.0 * SimpsonTerms(ys, |ys| - 1)
  }

  /** On one interval the formula is not Simpson's rule: it weighs both ends by h/3, two-thirds of the trapezoid rule. */
  lemma SimpsonOneInterval(y0: real, y1: real, h: real)
    ensures Simpson([y0, y1], h) == h / 3.0 * (y0 + y1)
    ensures Simpson([y0, y1], h) == 2.0 / 3.0 * (h * (y0 + y1) / 2.0)
  {
    assert [y0, y1][..1] == [y0];
    assert [y0][..0] == [];
    assert SimpsonTerms([y0], 1) == y0;
    assert SimpsonTerms([y0, y1], 1) == y0 + y1;
  }

  /** The function values of a grid, in order. */
  function Values(g: seq<Pt>): seq<real>
  {
    seq(|g|, j requires 0 <= j < |g| => g[j].f)
  }

  /** On a grid with the integrator's weights, twice the weighted sum of a prefix is its Simpson sum. */
  lemma {:induction false} HalfSimpsonPrefix(g: seq<Pt>, n: nat, k: nat)
    requires WeightPattern(g) && |g| <= n && k <= |g|
    ensures 2.0 * WeightedSum(g[..k]) == SimpsonTerms(Values(g)[..k], n)
    decreases k
  {
    if k > 0 {
      HalfSimpsonPrefix(g, n, k - 1);
      assert g[..k][..k - 1] == g[..k - 1];
      assert Values(g)[..k][..k - 1] == Values(g)[..k - 1];
      assert g[k - 1].wt * 2.0 == Coeff(k - 1, n);
    }
  }

  /**
   * The weighted sum the integrator forms over its grid plus the held-apart final
   * endpoint (weight 0.5) is half the extended Simpson sum over all |pts| intervals.
   */
  lemma WeightsAreHalfSimpson(pts: seq<Pt>, ptf: Pt)
    requires WeightPattern(pts) && ptf.wt == 0.5
    ensures 2.0 * (ptf.f * ptf.wt + WeightedSum(pts)) == SimpsonTerms(Values(pts) + [ptf.f], |pts|)
  {
    var ys := Values(pts) + [ptf.f];
    HalfSimpsonPrefix(pts, |pts|, |pts|);
    assert pts[..|pts|] == pts;
    assert ys[..|ys| - 1] == Values(pts);
    assert Values(pts)[..|pts|] == Values(pts);
  }

  /** On an even-length grid with the integrator's weights and constant value c, f * wt sums to c(3n - 1)/2. */
  lemma {:induction false} ConstantPatternSum(g: seq<Pt>, c: real)
    requires WeightPattern(g) && AllValues(g, c) && |g| % 2 == 0
    ensures WeightedSum(g) == c * (3.0 * |g| as real - 1.0) / 2.0
    decreases |g|
  {
    var n := |g|;
    if n == 2 {
      assert g[..1][..0] == [];
      assert WeightedSum(g[..1]) == c * 0.5;
      assert g[..n - 1] == g[..1];
      assert g[1].wt == 2.0;
    } else {
      var shorter := g[..n - 2];
      assert WeightPattern(shorter);
      assert AllValues(shorter, c);
      ConstantPatternSum(shorter, c);
      assert g[..n - 1][..n - 2] == shorter;
      assert g[n - 1].wt == 2.0;
      assert g[n - 2].wt == 1.0;
    }
  }
}
