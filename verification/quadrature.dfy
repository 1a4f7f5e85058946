/**
 * The refinement loop of the integration handler: endpoint setup, one Simpson pass
 * with its Aitken/Richardson bookkeeping, and the convergence loop driven by fuel.
 */
module Quadrature {
  import opened Wrappers
  import opened Samples

  /** The external endpoint parser. */
  type Parser = string -> Result<real, string>

  /** Absolute tolerance between successive accelerated estimates: 10^-12. */
  const Epsilon: real := 0.000000000001

  /** Loop-local state of one integration. A `None` estimate is the source's infinite sentinel. */
  datatype State = State(
    pts: seq<Pt>,             // working grid, without the final endpoint
    ptf: Pt,                  // the final endpoint, held apart
    dx: real,                 // spacing of the working grid
    number: nat,              // subdivision count reported to the caller
    integral: Option<real>,   // raw Simpson estimate of the previous pass
    aitkens: Option<real>,    // accelerated estimate before the last one
    aitkensNew: Option<real>) // latest accelerated estimate

  /** What the handler reports after the loop exits. */
  datatype Report = Report(integral: real, xi: real, xf: real, epsilon: real, subdivisions: nat)

  /** How the fuel-bounded loop stopped. */
  datatype Halt = Done(state: State) | Failed(failure: Failure) | OutOfFuel(state: State)

  /** How a whole request ended; `Unfinished` only arises because the model bounds the loop. */
  datatype Outcome = Computed(report: Report) | Aborted(failure: Failure) | Unfinished(state: State)

  function Abs(r: real): real
  {
    if r < 0.0 then -r else r
  }

  // ---------------------------------------------------------------- endpoints

  /** The failure, if any, of parsing one endpoint text and then evaluating the integrand there. */
  function EndpointFailure(text: string, parse: Parser, eval: Evaluator): Option<Failure>
  {
    match parse(text)
    case Err(m) => Some(ParseFailure(m))
    case Ok(x) =>
      match eval(x)
      case Err(m) => Some(EvalFailure(m))
      case Ok(_) => None
  }

  /**
   * The `for x_str in &[xi_str, xf_str]` loop: parse, evaluate and push each endpoint with
   * weight 0.5, stopping at the first failure.
   */
  function Endpoints(texts: seq<string>, parse: Parser, eval: Evaluator): (r: Result<seq<Pt>, Failure>)
    ensures r.Ok? <==> forall i :: 0 <= i < |texts| ==> EndpointFailure(texts[i], parse, eval).None?
    ensures r.Ok? ==> |r.value| == |texts|
    ensures r.Ok? ==> forall i :: 0 <= i < |texts| ==>
                        && parse(texts[i]) == Ok(r.value[i].x)
                        && eval(r.value[i].x) == Ok(r.value[i].f)
                        && r.value[i].wt == 0.5
    ensures r.Err? ==> exists i :: 0 <= i < |texts|
                                  && EndpointFailure(texts[i], parse, eval) == Some(r.error)
                                  && forall k :: 0 <= k < i ==> EndpointFailure(texts[k], parse, eval).None?
    decreases |texts|
  {
    if |texts| == 0 then Ok([])
    else
      var init := texts[..|texts| - 1];
      var last := texts[|texts| - 1];
      assert forall i :: 0 <= i < |init| ==> init[i] == texts[i];
      match Endpoints(init, parse, eval)
      case Err(e) => Err(e)
      case Ok(pushed) =>
        match parse(last)
        case Err(m) => Err(ParseFailure(m))
        case Ok(x) =>
          match eval(x)
          case Err(m) => Err(EvalFailure(m))
          case Ok(f) => Ok(pushed + [Pt(x, f, 0.5)])
  }

  /** The state the loop starts from: one point in the grid, the final endpoint apart, no estimates yet. */
  predicate Initial(s: State)
  {
    && |s.pts| == 1
    && s.pts[0].wt == 0.5
    && s.ptf.wt == 0.5
    && s.dx == s.ptf.x - s.pts[0].x
    && s.number == 1
    && s.integral.None? && s.aitkens.None? && s.aitkensNew.None?
  }

  /**
   * Endpoint setup: xi is parsed then evaluated, then xf; the first failure aborts. The final
   * endpoint is then popped off to be held apart, which cannot fail.
   */
  function Setup(xiText: string, xfText: string, parse: Parser, eval: Evaluator): (r: Result<State, Failure>)
    ensures EndpointFailure(xiText, parse, eval).Some? ==> r == Err(EndpointFailure(xiText, parse, eval).value)
    ensures EndpointFailure(xiText, parse, eval).None? && EndpointFailure(xfText, parse, eval).Some? ==>
              r == Err(EndpointFailure(xfText, parse, eval).value)
    ensures r.Ok? <==> EndpointFailure(xiText, parse, eval).None? && EndpointFailure(xfText, parse, eval).None?
    ensures r.Ok? ==> && Initial(r.value)
                      && parse(xiText) == Ok(r.value.pts[0].x)
                      && parse(xfText) == Ok(r.value.ptf.x)
                      && eval(r.value.pts[0].x) == Ok(r.value.pts[0].f)
                      && eval(r.value.ptf.x) == Ok(r.value.ptf.f)
    ensures r != Err(MissingEndpoint)
  {
    var texts := [xiText, xfText];
    match Endpoints(texts, parse, eval)
    case Err(e) =>
      assert EndpointFailure(xiText, parse, eval).None? ==> EndpointFailure(texts[0], parse, eval).None?;
      Err(e)
    case Ok(pushed) =>
      if |pushed| == 0 then Err(MissingEndpoint)
      else
        var ptf := pushed[|pushed| - 1];
        var pts := pushed[..|pushed| - 1];
        Ok(State(pts, ptf, ptf.x - pts[0].x, 1, None, None, None))
  }

  // ---------------------------------------------------------------- one pass

  /** Aitken/Richardson update: with a previous raw estimate, the new one moves on by a fifteenth of the change. */
  function Accelerate(previous: Option<real>, raw: real): (r: real)
    ensures previous.None? ==> r == raw
    ensures previous.Some? ==> 15.0 * r == 16.0 * raw - previous.value
  {
    if previous.Some? then raw + (raw - previous.value) / 15.0 else raw
  }

  /** The raw estimate of the pass that starts from s: (4 * dx' / 3) * (ptf.f * ptf.wt + sum f * wt), dx' = dx / 2. */
  function RawEstimate(s: State): real
  {
    (4.0 * (s.dx / 2.0) / 3.0) * (Contribution(s.ptf) + WeightedSum(s.pts))
  }

  /**
   * One trip round the while loop: double the count, halve dx, form the raw estimate over the
   * current grid, rebuild the grid, reset the first weight, and shift the estimates.
   */
  function Step(s: State, eval: Evaluator): (r: Result<State, Failure>)
    requires |s.pts| > 0
    ensures r.Ok? <==> AllEvaluate(s.pts, s.dx / 2.0, eval)
    ensures r.Err? ==> FirstFailure(s.pts, s.dx / 2.0, eval) == Some(r.error)
    ensures r.Ok? ==> && |r.value.pts| == 2 * |s.pts|
                      && r.value.number == 2 * s.number
                      && r.value.dx == s.dx / 2.0
                      && r.value.ptf == s.ptf
    ensures r.Ok? ==> && r.value.integral == Some(RawEstimate(s))
                      && r.value.aitkens == s.aitkensNew
                      && r.value.aitkensNew == Some(Accelerate(s.integral, RawEstimate(s)))
  {
    var h := s.dx / 2.0;
    match Refine(s.pts, h, eval)
    case Err(e) => Err(e)
    case Ok(g) =>
      var raw := RawEstimate(s);
      Ok(State(g[0 := g[0].(wt := 0.5)], s.ptf, h, 2 * s.number, Some(raw), s.aitkensNew, Some(Accelerate(s.integral, raw))))
  }

  /**
   * The `for mut pt in pts` loop as the handler writes it: one left-to-right scan that adds
   * each point's f * wt to the running sum and rebuilds the grid, returning at the first failure.
   */
  method Scan(pts: seq<Pt>, dx: real, eval: Evaluator, start: real) returns (sum: real, r: Result<seq<Pt>, Failure>)
    ensures r == Refine(pts, dx, eval)
    ensures r.Ok? ==> sum == start + WeightedSum(pts)
  {
    sum := start;
    var newPts: seq<Pt> := [];
    var i := 0;
    while i < |pts|
      invariant 0 <= i <= |pts|
      invariant sum == start + WeightedSum(pts[..i])
      invariant Refine(pts[..i], dx, eval) == Ok(newPts)
    {
      var pt := pts[i];
      var x := pt.x + dx;
      var value := eval(x);
      ScanStep(pts, dx, eval, i, newPts);
      sum := sum + Contribution(pt);
      if value.Err? {
        return sum, Err(MidpointFailure(pt.x, value.error));
      }
      newPts := newPts + [pt.(wt := 1.0), Pt(x, value.value, 2.0)];
      i := i + 1;
    }
    assert pts[..i] == pts;
    r := Ok(newPts);
  }

  /** What one iteration of the scan establishes, whichever way the evaluation goes. */
  lemma ScanStep(pts: seq<Pt>, dx: real, eval: Evaluator, i: nat, newPts: seq<Pt>)
    requires i < |pts|
    requires Refine(pts[..i], dx, eval) == Ok(newPts)
    ensures WeightedSum(pts[..i + 1]) == WeightedSum(pts[..i]) + Contribution(pts[i])
    ensures eval(pts[i].x + dx).Err? ==>
              Refine(pts, dx, eval) == Err(MidpointFailure(pts[i].x, eval(pts[i].x + dx).error))
    ensures eval(pts[i].x + dx).Ok? ==>
              Refine(pts[..i + 1], dx, eval)
                == Ok(newPts + [pts[i].(wt := 1.0), Pt(pts[i].x + dx, eval(pts[i].x + dx).value, 2.0)])
  {
    WeightedSumExtends(pts, i);
    match eval(pts[i].x + dx) {
      case Err(m) => RefineStopsAt(pts, dx, eval, i, newPts, m);
      case Ok(f) => RefineExtends(pts, dx, eval, i, newPts, f);
    }
  }

  /** The loop body as the handler writes it, built on the scan. */
  method Pass(s: State, eval: Evaluator) returns (r: Result<State, Failure>)
    requires |s.pts| > 0
    ensures r == Step(s, eval)
  {
    var number := 2 * s.number;
    var dx := s.dx / 2.0;
    var integralNew, scanned := Scan(s.pts, dx, eval, Contribution(s.ptf));
    if scanned.Err? {
      StepOfFailed(s, eval, scanned.error);
      return Err(scanned.error);
    }
    var newPts := scanned.value;
    var scale := 4.0 * dx / 3.0;
    assert integralNew * scale == scale * integralNew;
    integralNew := integralNew * scale;
    assert integralNew == RawEstimate(s);
    StepOfRefined(s, eval, newPts);
    newPts := newPts[0 := newPts[0].(wt := 0.5)];
    var aitkensNew := integralNew;
    if s.integral.Some? {
      aitkensNew := aitkensNew + (integralNew - s.integral.value) / 15.0;
    }
    assert aitkensNew == Accelerate(s.integral, integralNew);
    r := Ok(State(newPts, s.ptf, dx, number, Some(integralNew), s.aitkensNew, Some(aitkensNew)));
  }

  /** Step's result once the refinement is known to succeed. */
  lemma StepOfRefined(s: State, eval: Evaluator, g: seq<Pt>)
    requires |s.pts| > 0
    requires Refine(s.pts, s.dx / 2.0, eval) == Ok(g)
    ensures |g| > 0
    ensures Step(s, eval) == Ok(State(g[0 := g[0].(wt := 0.5)], s.ptf, s.dx / 2.0, 2 * s.number,
                                      Some(RawEstimate(s)), s.aitkensNew,
                                      Some(Accelerate(s.integral, RawEstimate(s)))))
  {
  }

  /** Step's result once the refinement is known to fail. */
  lemma StepOfFailed(s: State, eval: Evaluator, e: Failure)
    requires |s.pts| > 0
    requires Refine(s.pts, s.dx / 2.0, eval) == Err(e)
    ensures Step(s, eval) == Err(e)
  {
  }

  // ---------------------------------------------------------------- the loop

  /** Power of two. */
  function Pow2(k: nat): (r: nat)
    ensures r >= 1
  {
    if k == 0 then 1 else 2 * Pow2(k - 1)
  }

  /** Any positive number of doublings gives an even number. */
  lemma Pow2Even(k: nat)
    requires k >= 1
    ensures Pow2(k) % 2 == 0
  {
    assert Pow2(k) == 2 * Pow2(k - 1);
  }

  /** k passes in a row, regardless of the loop condition. */
  function Passes(s: State, eval: Evaluator, k: nat): (r: Result<State, Failure>)
    requires |s.pts| > 0
    ensures r.Ok? ==> |r.value.pts| > 0
    decreases k
  {
    if k == 0 then Ok(s)
    else
      match Passes(s, eval, k - 1)
      case Err(e) => Err(e)
      case Ok(u) => Step(u, eval)
  }

  /** After k passes the grid has 2^k times as many points and the count is 2^k times larger. */
  lemma {:induction false} PassesGrowth(s: State, eval: Evaluator, k: nat)
    requires |s.pts| > 0 && Passes(s, eval, k).Ok?
    ensures |Passes(s, eval, k).value.pts| == Pow2(k) * |s.pts|
    ensures Passes(s, eval, k).value.number == Pow2(k) * s.number
    decreases k
  {
    if k > 0 {
      PassesGrowth(s, eval, k - 1);
      var u := Passes(s, eval, k - 1).value;
      var p := Pow2(k - 1);
      assert Passes(s, eval, k) == Step(u, eval);
      assert Pow2(k) == 2 * p;
      DoubleProduct(p, |s.pts|);
      DoubleProduct(p, s.number);
    }
  }

  /** Doubling one factor doubles the product; kept apart so the solver sees it without the state around it. */
  lemma DoubleProduct(p: int, n: int)
    ensures (2 * p) * n == 2 * (p * n)
  {
  }

  /** The while condition: a tracked estimate is still the sentinel, or the last two differ by more than Epsilon. */
  predicate Continue(s: State)
  {
    s.aitkens.None? || s.aitkensNew.None? || Abs(s.aitkensNew.value - s.aitkens.value) > Epsilon
  }

  /** The while loop, given at most `fuel` passes. */
  function Run(s: State, eval: Evaluator, fuel: nat): (r: Halt)
    requires |s.pts| > 0
    ensures r.Done? ==> !Continue(r.state)
    ensures !r.Failed? ==> |r.state.pts| > 0
    ensures r.Failed? ==> r.failure.MidpointFailure?
    decreases fuel
  {
    if !Continue(s) then Done(s)
    else if fuel == 0 then OutOfFuel(s)
    else
      match Step(s, eval)
      case Err(e) => Failed(e)
      case Ok(t) => Run(t, eval, fuel - 1)
  }

  /** The integration request: setup, the loop, and the report of the last accelerated estimate. */
  function Integrate(xiText: string, xfText: string, parse: Parser, eval: Evaluator, fuel: nat): (r: Outcome)
    ensures Setup(xiText, xfText, parse, eval).Err? ==> r == Aborted(Setup(xiText, xfText, parse, eval).error)
    ensures Setup(xiText, xfText, parse, eval).Ok? && r.Aborted? ==> r.failure.MidpointFailure?
    ensures r != Aborted(MissingEndpoint)
  {
    match Setup(xiText, xfText, parse, eval)
    case Err(e) => Aborted(e)
    case Ok(s0) =>
      match Run(s0, eval, fuel)
      case Failed(e) => Aborted(e)
      case OutOfFuel(t) => Unfinished(t)
      case Done(t) => Computed(Report(t.aitkensNew.value, t.pts[0].x, t.ptf.x, Epsilon, t.number))
  }
}

/** Properties of the integration loop: grid shape per pass, the extended Simpson formula, and the loop's exits. */
module QuadratureFacts {
  import opened Wrappers
  import opened Samples
  import opened Quadrature

  /**
   * The working grid's shape: one point per subdivision, the weights 0.5, 2, 1, 2, ..., 2,
   * the final endpoint (weight 0.5) one step beyond the last point, and uniform spacing dx.
   */
  predicate GridShape(s: State)
  {
    && |s.pts| == s.number
    && WeightPattern(s.pts)
    && s.ptf.wt == 0.5
    && Uniform(s.pts, s.dx)
    && s.ptf.x == s.pts[|s.pts| - 1].x + s.dx
  }

  lemma InitialShape(s: State)
    requires Initial(s)
    ensures GridShape(s)
  {
    forall j | 0 <= j < |s.pts|
      ensures s.pts[j].x == s.pts[0].x + j as real * s.dx
    {
      assert j == 0;
    }
  }

  /** With j = 2q + b, q steps of dx and b half-steps make j half-steps. */
  lemma HalfSteps(j: nat, dx: real)
    ensures (j / 2) as real * dx + (if j % 2 == 1 then dx / 2.0 else 0.0) == j as real * (dx / 2.0)
  {
    var q := j / 2;
    var b := j % 2;
    assert j == 2 * q + b;
    var qr := q as real;
    assert j as real == 2.0 * qr + b as real;
    if b == 1 {
      assert j as real * (dx / 2.0) == (2.0 * qr + 1.0) * (dx / 2.0);
      assert (2.0 * qr + 1.0) * (dx / 2.0) == qr * dx + dx / 2.0;
    } else {
      assert j as real * (dx / 2.0) == (2.0 * qr) * (dx / 2.0);
      assert (2.0 * qr) * (dx / 2.0) == qr * dx;
    }
  }

  /** The final endpoint sits number * dx to the right of the first point. */
  lemma GridSpan(s: State)
    requires GridShape(s)
    ensures s.ptf.x == s.pts[0].x + s.number as real * s.dx
  {
    var n := |s.pts|;
    assert s.pts[n - 1].x == s.pts[0].x + (n - 1) as real * s.dx;
    assert (n - 1) as real * s.dx + s.dx == n as real * s.dx;
  }

  /**
   * t's grid is s's grid refined once: old point j/2 reappears at even j with its position and
   * value, a new point one new step to its right sits at odd j; the weights are reset to the
   * pattern and the final endpoint, count and spacing move on as one pass moves them.
   */
  predicate Refined(s: State, t: State)
  {
    && |t.pts| == 2 * |s.pts|
    && t.number == 2 * s.number
    && t.dx == s.dx / 2.0
    && t.ptf == s.ptf
    && |t.pts| > 0 && t.pts[0].wt == 0.5
    && forall j :: 0 <= j < |t.pts| ==>
         && (j > 0 ==> t.pts[j].wt == if j % 2 == 0 then 1.0 else 2.0)
         && if j % 2 == 0 then t.pts[j].x == s.pts[j / 2].x && t.pts[j].f == s.pts[j / 2].f
            else t.pts[j].x == s.pts[j / 2].x + t.dx
  }

  /** A successful pass refines the grid, and every new point holds the integrand's value there. */
  lemma StepPoints(s: State, eval: Evaluator)
    requires |s.pts| > 0
    requires Step(s, eval).Ok?
    ensures var t := Step(s, eval).value;
      && Refined(s, t)
      && forall j :: 0 <= j < |t.pts| && j % 2 == 1 ==> eval(t.pts[j].x) == Ok(t.pts[j].f)
  {
    var h := s.dx / 2.0;
    var g := Refine(s.pts, h, eval).value;
    RefineContents(s.pts, h, eval);
    StepOfRefined(s, eval, g);
  }

  /** Refinement keeps the grid's shape, and the first point stays where it was with its value. */
  lemma RefinedKeepsShape(s: State, t: State)
    requires GridShape(s) && Refined(s, t)
    ensures GridShape(t)
    ensures t.pts[0] == s.pts[0]
  {
    RefinedWeights(s, t);
    RefinedUniform(s, t);
    var n := |s.pts|;
    assert t.pts[2 * n - 1].x == s.pts[n - 1].x + t.dx;
  }

  lemma RefinedWeights(s: State, t: State)
    requires Refined(s, t)
    ensures WeightPattern(t.pts)
  {
  }

  lemma RefinedUniform(s: State, t: State)
    requires Uniform(s.pts, s.dx) && Refined(s, t)
    ensures Uniform(t.pts, t.dx)
  {
    forall j | 0 <= j < |t.pts|
      ensures t.pts[j].x == t.pts[0].x + j as real * t.dx
    {
      RefinedPosition(s, t, j);
    }
  }

  lemma RefinedPosition(s: State, t: State, j: nat)
    requires Uniform(s.pts, s.dx) && Refined(s, t) && j < |t.pts|
    ensures t.pts[j].x == t.pts[0].x + j as real * t.dx
  {
    HalfSteps(j, s.dx);
    assert s.pts[j / 2].x == s.pts[0].x + (j / 2) as real * s.dx;
    assert t.pts[0].x == s.pts[0].x;
  }

  /** A pass keeps the grid's shape, and the first point stays where it was with its value. */
  lemma StepKeepsGrid(s: State, eval: Evaluator)
    requires GridShape(s)
    requires Step(s, eval).Ok?
    ensures GridShape(Step(s, eval).value)
    ensures Step(s, eval).value.pts[0] == s.pts[0]
  {
    StepPoints(s, eval);
    RefinedKeepsShape(s, Step(s, eval).value);
  }

  /**
   * After k passes from the initial state: the grid's shape, 2^k points and subdivisions,
   * both endpoints where they started, and the sentinels replaced in order, the raw
   * and latest accelerated estimates from the first pass on, the older one from the second.
   */
  lemma {:induction false} PassesShape(s0: State, eval: Evaluator, k: nat)
    requires Initial(s0)
    requires Passes(s0, eval, k).Ok?
    ensures var t := Passes(s0, eval, k).value;
      && GridShape(t)
      && |t.pts| == t.number == Pow2(k)
      && t.ptf == s0.ptf
      && t.pts[0] == s0.pts[0]
      && (t.integral.Some? <==> k >= 1)
      && (t.aitkensNew.Some? <==> k >= 1)
      && (t.aitkens.Some? <==> k >= 2)
    decreases k
  {
    if k == 0 {
      InitialShape(s0);
    } else {
      PassesShape(s0, eval, k - 1);
      var u := Passes(s0, eval, k - 1).value;
      StepKeepsGrid(u, eval);
      var t := Step(u, eval).value;
      assert t == Passes(s0, eval, k).value;
    }
  }

  /** Running k + 1 passes is one pass followed by k more. */
  lemma {:induction false} PassesUnroll(s: State, eval: Evaluator, k: nat)
    requires |s.pts| > 0
    ensures Passes(s, eval, k + 1) ==
              match Step(s, eval)
              case Err(e) => Err(e)
              case Ok(u) => Passes(u, eval, k)
    decreases k
  {
    if k > 0 {
      PassesUnroll(s, eval, k - 1);
    }
  }

  /** Pass k is one step from the state after pass k - 1: the raw estimate and the accelerated pair move on by one. */
  lemma PassesLast(s: State, eval: Evaluator, k: nat)
    requires |s.pts| > 0 && k >= 1 && Passes(s, eval, k).Ok?
    ensures Passes(s, eval, k - 1).Ok?
    ensures var u := Passes(s, eval, k - 1).value;
            var t := Passes(s, eval, k).value;
      && t.integral == Some(RawEstimate(u))
      && t.aitkens == u.aitkensNew
      && t.aitkensNew == Some(Accelerate(u.integral, RawEstimate(u)))
  {
  }

  /** The loop from a state, unrolled by one pass. */
  lemma RunOnce(s: State, eval: Evaluator, fuel: nat)
    requires |s.pts| > 0 && Continue(s) && fuel >= 1 && Step(s, eval).Ok?
    ensures Run(s, eval, fuel) == Run(Step(s, eval).value, eval, fuel - 1)
  {
  }

  /** The loop condition held after each of the first n passes from s, and none of them failed. */
  predicate ContinuesThrough(s: State, eval: Evaluator, n: nat)
    requires |s.pts| > 0
  {
    forall j: nat :: j < n ==> Passes(s, eval, j).Ok? && Continue(Passes(s, eval, j).value)
  }

  /** After a successful first pass, j >= 1 passes are j - 1 passes from the state it produced. */
  lemma PassesAfterStep(s: State, eval: Evaluator, j: nat)
    requires |s.pts| > 0 && j >= 1 && Step(s, eval).Ok?
    ensures Passes(s, eval, j) == Passes(Step(s, eval).value, eval, j - 1)
  {
    PassesUnroll(s, eval, j - 1);
  }

  /** A run of continuing passes from the state after one continuing pass extends back to the state before it. */
  lemma ShiftOne(s: State, eval: Evaluator, n: nat)
    requires |s.pts| > 0 && Continue(s) && Step(s, eval).Ok?
    requires ContinuesThrough(Step(s, eval).value, eval, n)
    ensures ContinuesThrough(s, eval, n + 1)
  {
    forall j: nat | j < n + 1
      ensures Passes(s, eval, j).Ok? && Continue(Passes(s, eval, j).value)
    {
      if j == 0 {
        assert Passes(s, eval, 0) == Ok(s);
      } else {
        PassesAfterStep(s, eval, j);
      }
    }
  }

  /**
   * A stopped loop: its state is the result of some k <= fuel whole passes, and the loop
   * condition held after each of the passes before (so k is the first pass that stops it).
   */
  lemma {:induction false} RunIsPasses(s: State, eval: Evaluator, fuel: nat)
    requires |s.pts| > 0
    requires Run(s, eval, fuel).Done?
    ensures exists k: nat :: k <= fuel && Passes(s, eval, k) == Ok(Run(s, eval, fuel).state)
                             && ContinuesThrough(s, eval, k)
    decreases fuel
  {
    if !Continue(s) {
      assert Passes(s, eval, 0) == Ok(s);
      assert ContinuesThrough(s, eval, 0);
    } else {
      var u := Step(s, eval).value;
      RunIsPasses(u, eval, fuel - 1);
      var k: nat :| k <= fuel - 1 && Passes(u, eval, k) == Ok(Run(u, eval, fuel - 1).state)
                    && ContinuesThrough(u, eval, k);
      PassesUnroll(s, eval, k);
      ShiftOne(s, eval, k);
    }
  }

  /**
   * A failed loop: for some k < fuel the first k passes succeeded with the loop condition
   * holding after each, as it did before the next one, and pass k + 1 failed with the
   * reported failure.
   */
  lemma {:induction false} RunFailedAt(s: State, eval: Evaluator, fuel: nat)
    requires |s.pts| > 0
    requires Run(s, eval, fuel).Failed?
    ensures exists k: nat :: k < fuel && ContinuesThrough(s, eval, k + 1)
                             && Step(Passes(s, eval, k).value, eval) == Err(Run(s, eval, fuel).failure)
    decreases fuel
  {
    assert Passes(s, eval, 0) == Ok(s);
    match Step(s, eval)
    case Err(e) =>
      assert ContinuesThrough(s, eval, 1);
    case Ok(u) =>
      RunFailedAt(u, eval, fuel - 1);
      var k: nat :| k < fuel - 1 && ContinuesThrough(u, eval, k + 1)
                    && Step(Passes(u, eval, k).value, eval) == Err(Run(u, eval, fuel - 1).failure);
      PassesUnroll(s, eval, k);
      ShiftOne(s, eval, k + 1);
  }

  /** A loop out of fuel has made exactly fuel whole passes. */
  lemma {:induction false} RunOutOfFuelState(s: State, eval: Evaluator, fuel: nat)
    requires |s.pts| > 0
    requires Run(s, eval, fuel).OutOfFuel?
    ensures Passes(s, eval, fuel) == Ok(Run(s, eval, fuel).state)
    decreases fuel
  {
    if fuel == 0 {
      assert Passes(s, eval, 0) == Ok(s);
    } else {
      RunOutOfFuelState(Step(s, eval).value, eval, fuel - 1);
      PassesAfterStep(s, eval, fuel);
    }
  }

  /**
   * A loop out of fuel: the loop condition held before the first pass and after each of
   * the fuel passes it made, none of which failed; so a stop or a failure within fuel
   * passes is never reported as running out of fuel.
   */
  lemma {:induction false} RunOutOfFuelContinues(s: State, eval: Evaluator, fuel: nat)
    requires |s.pts| > 0
    requires Run(s, eval, fuel).OutOfFuel?
    ensures ContinuesThrough(s, eval, fuel + 1)
    decreases fuel
  {
    assert Passes(s, eval, 0) == Ok(s);
    if fuel == 0 {
      assert ContinuesThrough(s, eval, 1);
    } else {
      RunOutOfFuelContinues(Step(s, eval).value, eval, fuel - 1);
      ShiftOne(s, eval, fuel);
    }
  }

  /**
   * The raw estimate of a pass is the extended Simpson formula over the grid the
   * pass starts from, the final endpoint included, at that grid's spacing.
   */
  lemma RawIsSimpson(s: State)
    requires GridShape(s)
    ensures RawEstimate(s) == Simpson(Values(s.pts) + [s.ptf.f], s.dx)
  {
    var sum := Contribution(s.ptf) + WeightedSum(s.pts);
    WeightsAreHalfSimpson(s.pts, s.ptf);
    var terms := SimpsonTerms(Values(s.pts) + [s.ptf.f], |s.pts|);
    assert 2.0 * sum == terms;
    assert RawEstimate(s) == (4.0 * (s.dx / 2.0) / 3.0) * sum;
    assert (4.0 * (s.dx / 2.0) / 3.0) * sum == s.dx / 3.0 * (2.0 * sum);
  }

  /** The extended Simpson formula over a state's grid, its final endpoint included. */
  function GridSimpson(s: State): real
  {
    Simpson(Values(s.pts) + [s.ptf.f], s.dx)
  }

  /**
   * The newer accelerated estimate after pass k is built from the extended Simpson formula alone: on pass 1
   * it is the extended Simpson formula over the starting grid, and from pass 2 on it is the Richardson/Aitken
   * combination of the extended Simpson formula over the grids that passes k - 1 and k started from.
   */
  lemma AcceleratedIsSimpson(s0: State, eval: Evaluator, k: nat)
    requires Initial(s0) && k >= 1 && Passes(s0, eval, k).Ok?
    ensures Passes(s0, eval, k - 1).Ok?
    ensures k >= 2 ==> Passes(s0, eval, k - 2).Ok?
    ensures var u := Passes(s0, eval, k - 1).value;
      Passes(s0, eval, k).value.aitkensNew ==
        Some(if k == 1 then GridSimpson(u)
             else Accelerate(Some(GridSimpson(Passes(s0, eval, k - 2).value)), GridSimpson(u)))
  {
    if k == 1 {
      FirstAccelerated(s0, eval);
    } else {
      LaterAccelerated(s0, eval, k);
    }
  }

  /** Pass 1 has nothing to accelerate against: its estimate is the extended Simpson formula over the starting grid. */
  lemma FirstAccelerated(s0: State, eval: Evaluator)
    requires Initial(s0) && Passes(s0, eval, 1).Ok?
    ensures Passes(s0, eval, 1).value.aitkensNew == Some(GridSimpson(s0))
  {
    AcceleratedFromIntegral(s0, eval, 1);
    assert Passes(s0, eval, 0) == Ok(s0);
  }

  /** From pass 2 on the estimate combines the extended Simpson formula over the two grids before it. */
  lemma LaterAccelerated(s0: State, eval: Evaluator, k: nat)
    requires Initial(s0) && k >= 2 && Passes(s0, eval, k).Ok?
    ensures Passes(s0, eval, k - 1).Ok? && Passes(s0, eval, k - 2).Ok?
    ensures Passes(s0, eval, k).value.aitkensNew ==
      Some(Accelerate(Some(GridSimpson(Passes(s0, eval, k - 2).value)), GridSimpson(Passes(s0, eval, k - 1).value)))
  {
    AcceleratedFromIntegral(s0, eval, k);
    var j := k - 1;
    IntegralIsSimpson(s0, eval, j);
    assert j - 1 == k - 2;
  }

  /** The newer accelerated estimate after pass k combines the previous raw estimate with the extended Simpson formula over pass k's starting grid. */
  lemma AcceleratedFromIntegral(s0: State, eval: Evaluator, k: nat)
    requires Initial(s0) && k >= 1 && Passes(s0, eval, k).Ok?
    ensures Passes(s0, eval, k - 1).Ok?
    ensures var u := Passes(s0, eval, k - 1).value;
      Passes(s0, eval, k).value.aitkensNew == Some(Accelerate(u.integral, GridSimpson(u)))
  {
    PassesLast(s0, eval, k);
    IntegralIsSimpson(s0, eval, k);
  }

  /** The raw estimate after pass k is the extended Simpson formula over the grid that pass started from. */
  lemma IntegralIsSimpson(s0: State, eval: Evaluator, k: nat)
    requires Initial(s0) && k >= 1 && Passes(s0, eval, k).Ok?
    ensures Passes(s0, eval, k - 1).Ok?
    ensures Passes(s0, eval, k).value.integral == Some(GridSimpson(Passes(s0, eval, k - 1).value))
  {
    PassesLast(s0, eval, k);
    PassesShape(s0, eval, k - 1);
    RawIsSimpson(Passes(s0, eval, k - 1).value);
  }

  /** The exact integral of the constant c over [xi, xf]. */
  function Area(c: real, xi: real, xf: real): real
  {
    c * (xf - xi)
  }

  /** Exactness for a constant integrand: the first pass gives 2/3 of the answer, every later pass all of it. */
  lemma ConstantRaw(s: State, c: real, xi: real, xf: real)
    requires GridShape(s) && AllValues(s.pts, c) && s.ptf.f == c
    requires s.pts[0].x == xi && s.ptf.x == xf
    ensures s.number == 1 ==> RawEstimate(s) == 2.0 * Area(c, xi, xf) / 3.0
    ensures s.number % 2 == 0 ==> RawEstimate(s) == Area(c, xi, xf)
  {
    GridSpan(s);
    var n := |s.pts|;
    var scale := 4.0 * (s.dx / 2.0) / 3.0;
    if n == 1 {
      assert s.pts[..0] == [];
      assert WeightedSum(s.pts) == c * 0.5;
      assert RawEstimate(s) == scale * c;
    } else if n % 2 == 0 {
      ConstantPatternSum(s.pts, c);
      var sum := c * 0.5 + c * (3.0 * n as real - 1.0) / 2.0;
      assert sum == 1.5 * c * n as real;
      assert RawEstimate(s) == scale * sum;
      assert scale * (1.5 * c * n as real) == c * (n as real * s.dx);
    }
  }

  /** The Richardson step removes an error term that shrinks sixteenfold per halving of the step. */
  lemma AccelerateCancelsQuarticError(exact: real, e: real)
    ensures Accelerate(Some(exact + 16.0 * e), exact + e) == exact
  {
  }

  /** Two or more doublings give at least four. */
  lemma Pow2AtLeastFour(k: nat)
    requires k >= 2
    ensures Pow2(k) >= 4
  {
    assert Pow2(k) == 4 * Pow2(k - 2);
  }

  /**
   * A computed report: the endpoints are the parsed texts, the tolerance is Epsilon, and the
   * subdivision count is 2^k for some k of at least 2 and at most the passes allowed, because
   * the loop cannot stop before both tracked estimates have left their sentinels.
   */
  lemma IntegrateReport(xiText: string, xfText: string, parse: Parser, eval: Evaluator, fuel: nat)
    requires Integrate(xiText, xfText, parse, eval, fuel).Computed?
    ensures var rep := Integrate(xiText, xfText, parse, eval, fuel).report;
      && parse(xiText) == Ok(rep.xi)
      && parse(xfText) == Ok(rep.xf)
      && eval(rep.xi).Ok? && eval(rep.xf).Ok?
      && rep.epsilon == Epsilon
      && rep.subdivisions >= 4
      && exists k: nat :: 2 <= k <= fuel && rep.subdivisions == Pow2(k)
  {
    var s0 := Setup(xiText, xfText, parse, eval).value;
    var t := Run(s0, eval, fuel).state;
    RunIsPasses(s0, eval, fuel);
    var k: nat :| k <= fuel && Passes(s0, eval, k) == Ok(t);
    PassesShape(s0, eval, k);
    Pow2AtLeastFour(k);
  }

  /** A computed report is read off the state the loop stopped in, after a successful setup. */
  lemma ComputedFromRun(xiText: string, xfText: string, parse: Parser, eval: Evaluator, fuel: nat)
    requires Integrate(xiText, xfText, parse, eval, fuel).Computed?
    ensures Setup(xiText, xfText, parse, eval).Ok?
    ensures var s0 := Setup(xiText, xfText, parse, eval).value;
      && Initial(s0)
      && Run(s0, eval, fuel).Done?
      && var t := Run(s0, eval, fuel).state;
      Integrate(xiText, xfText, parse, eval, fuel).report
        == Report(t.aitkensNew.value, t.pts[0].x, t.ptf.x, Epsilon, t.number)
  {
  }

  /**
   * A stopped loop from setup: it stopped after some k >= 2 passes, the first k at which the
   * loop condition failed; the newer accelerated estimate is within Epsilon of the older one
   * and is the Richardson/Aitken combination of the extended Simpson formula over the grids of passes
   * k - 1 and k.
   */
  lemma StoppedPass(s0: State, eval: Evaluator, fuel: nat)
    requires Initial(s0) && Run(s0, eval, fuel).Done?
    ensures exists k: nat ::
      && 2 <= k <= fuel
      && ContinuesThrough(s0, eval, k)
      && Passes(s0, eval, k - 2).Ok? && Passes(s0, eval, k - 1).Ok?
      && Passes(s0, eval, k) == Ok(Run(s0, eval, fuel).state)
      && var t := Run(s0, eval, fuel).state;
      && t.aitkens.Some? && t.aitkensNew.Some?
      && Abs(t.aitkensNew.value - t.aitkens.value) <= Epsilon
      && t.aitkensNew.value == Accelerate(Some(GridSimpson(Passes(s0, eval, k - 2).value)),
                                          GridSimpson(Passes(s0, eval, k - 1).value))
  {
    RunIsPasses(s0, eval, fuel);
    var k: nat :| k <= fuel && Passes(s0, eval, k) == Ok(Run(s0, eval, fuel).state)
                  && ContinuesThrough(s0, eval, k);
    PassesShape(s0, eval, k);
    LaterAccelerated(s0, eval, k);
  }

  /**
   * The reported integral: the loop stopped after some k >= 2 passes, the first k at which the
   * loop condition failed; the report carries the newer accelerated estimate of that pass,
   * within Epsilon of the older one, and that estimate is the Richardson/Aitken combination
   * of the extended Simpson formula over the grids of passes k - 1 and k.
   */
  lemma ReportedIntegral(xiText: string, xfText: string, parse: Parser, eval: Evaluator, fuel: nat)
    requires Integrate(xiText, xfText, parse, eval, fuel).Computed?
    ensures Setup(xiText, xfText, parse, eval).Ok?
    ensures var s0 := Setup(xiText, xfText, parse, eval).value;
            var rep := Integrate(xiText, xfText, parse, eval, fuel).report;
      exists k: nat ::
        && 2 <= k <= fuel
        && ContinuesThrough(s0, eval, k)
        && Passes(s0, eval, k - 2).Ok? && Passes(s0, eval, k - 1).Ok? && Passes(s0, eval, k).Ok?
        && var t := Passes(s0, eval, k).value;
        && t.aitkens.Some? && t.aitkensNew.Some?
        && rep.integral == t.aitkensNew.value
        && Abs(rep.integral - t.aitkens.value) <= Epsilon
        && rep.integral == Accelerate(Some(GridSimpson(Passes(s0, eval, k - 2).value)),
                                      GridSimpson(Passes(s0, eval, k - 1).value))
  {
    ComputedFromRun(xiText, xfText, parse, eval, fuel);
    var s0 := Setup(xiText, xfText, parse, eval).value;
    StoppedPass(s0, eval, fuel);
  }

  /** A pass over a grid of c's with an integrand that is c everywhere succeeds and leaves only c's. */
  lemma ConstantStep(u: State, eval: Evaluator, c: real)
    requires |u.pts| > 0 && AllValues(u.pts, c)
    requires forall x :: eval(x) == Ok(c)
    ensures Step(u, eval).Ok?
    ensures AllValues(Step(u, eval).value.pts, c)
  {
    assert AllEvaluate(u.pts, u.dx / 2.0, eval);
    var t := Step(u, eval).value;
    StepPoints(u, eval);
    forall j | 0 <= j < |t.pts|
      ensures t.pts[j].f == c
    {
      if j % 2 == 1 {
        assert eval(t.pts[j].x) == Ok(t.pts[j].f);
      }
    }
  }

  /** A constant integrand c: no pass fails, and every grid value stays c. */
  lemma {:induction false} ConstantValues(s0: State, eval: Evaluator, c: real, k: nat)
    requires Initial(s0) && s0.pts[0].f == c
    requires forall x :: eval(x) == Ok(c)
    ensures Passes(s0, eval, k).Ok?
    ensures AllValues(Passes(s0, eval, k).value.pts, c)
    decreases k
  {
    if k > 0 {
      ConstantValues(s0, eval, c, k - 1);
      var u := Passes(s0, eval, k - 1).value;
      ConstantStep(u, eval, c);
      assert Passes(s0, eval, k) == Step(u, eval);
    }
  }

  /**
   * A constant integrand c, with a = c * (xf - xi): the raw estimate of the first pass is
   * 2a/3 and that of every later pass is a.
   */
  lemma ConstantIntegral(s0: State, eval: Evaluator, c: real, k: nat)
    requires Initial(s0) && s0.pts[0].f == c && s0.ptf.f == c
    requires forall x :: eval(x) == Ok(c)
    requires k >= 1
    ensures Passes(s0, eval, k).Ok?
    ensures var a := Area(c, s0.pts[0].x, s0.ptf.x);
      Passes(s0, eval, k).value.integral == Some(if k == 1 then 2.0 * a / 3.0 else a)
  {
    ConstantValues(s0, eval, c, k - 1);
    PassesShape(s0, eval, k - 1);
    var u := Passes(s0, eval, k - 1).value;
    if k == 1 {
      assert u.number == Pow2(0) == 1;
    } else {
      Pow2Even(k - 1);
    }
    ConstantStepIntegral(u, eval, c, s0.pts[0].x, s0.ptf.x);
    assert Passes(s0, eval, k) == Step(u, eval);
  }

  /** One pass over a grid of c's: its raw estimate is 2a/3 on the one-interval grid and a on an even grid. */
  lemma ConstantStepIntegral(u: State, eval: Evaluator, c: real, xi: real, xf: real)
    requires GridShape(u) && AllValues(u.pts, c) && u.ptf.f == c
    requires u.pts[0].x == xi && u.ptf.x == xf
    requires forall x :: eval(x) == Ok(c)
    requires u.number == 1 || u.number % 2 == 0
    ensures Step(u, eval).Ok?
    ensures Step(u, eval).value.integral == Some(if u.number == 1 then 2.0 * Area(c, xi, xf) / 3.0 else Area(c, xi, xf))
  {
    ConstantStep(u, eval, c);
    ConstantRaw(u, c, xi, xf);
  }

  /**
   * A constant integrand c, with a = c * (xf - xi), pass k >= 2: the older accelerated
   * estimate is the previous pass's newer one, and the newer one accelerates a against the
   * previous raw estimate (2a/3 on pass 2, a later).
   */
  lemma ConstantShift(s0: State, eval: Evaluator, c: real, k: nat)
    requires Initial(s0) && s0.pts[0].f == c && s0.ptf.f == c
    requires forall x :: eval(x) == Ok(c)
    requires k >= 2
    ensures Passes(s0, eval, k - 1).Ok? && Passes(s0, eval, k).Ok?
    ensures var u := Passes(s0, eval, k - 1).value;
            var t := Passes(s0, eval, k).value;
            var a := Area(c, s0.pts[0].x, s0.ptf.x);
      && t.aitkens == u.aitkensNew
      && t.aitkensNew == Some(Accelerate(Some(if k == 2 then 2.0 * a / 3.0 else a), a))
  {
    ConstantIntegral(s0, eval, c, k);
    ConstantIntegral(s0, eval, c, k - 1);
    PassesLast(s0, eval, k);
  }

  /** A constant integrand: pass 1 accelerates nothing, so its estimate is the raw 2a/3. */
  lemma ConstantFirstPass(s0: State, eval: Evaluator, c: real)
    requires Initial(s0) && s0.pts[0].f == c && s0.ptf.f == c
    requires forall x :: eval(x) == Ok(c)
    ensures Passes(s0, eval, 1).Ok?
    ensures Passes(s0, eval, 1).value.aitkensNew == Some(2.0 * Area(c, s0.pts[0].x, s0.ptf.x) / 3.0)
  {
    ConstantIntegral(s0, eval, c, 1);
    PassesLast(s0, eval, 1);
    assert Passes(s0, eval, 0).value == s0;
  }

  /** A constant integrand: after pass 2 the pair is (2a/3, 46a/45). */
  lemma ConstantSecondPass(s0: State, eval: Evaluator, c: real)
    requires Initial(s0) && s0.pts[0].f == c && s0.ptf.f == c
    requires forall x :: eval(x) == Ok(c)
    ensures Passes(s0, eval, 2).Ok?
    ensures var t := Passes(s0, eval, 2).value;
            var a := Area(c, s0.pts[0].x, s0.ptf.x);
      t.aitkens == Some(2.0 * a / 3.0) && t.aitkensNew == Some(46.0 * a / 45.0)
  {
    ConstantFirstPass(s0, eval, c);
    ConstantShift(s0, eval, c, 2);
  }

  /** A constant integrand: after pass 3 the pair is (46a/45, a). */
  lemma ConstantThirdPass(s0: State, eval: Evaluator, c: real)
    requires Initial(s0) && s0.pts[0].f == c && s0.ptf.f == c
    requires forall x :: eval(x) == Ok(c)
    ensures Passes(s0, eval, 3).Ok?
    ensures var t := Passes(s0, eval, 3).value;
            var a := Area(c, s0.pts[0].x, s0.ptf.x);
      t.aitkens == Some(46.0 * a / 45.0) && t.aitkensNew == Some(a)
  {
    ConstantSecondPass(s0, eval, c);
    ConstantShift(s0, eval, c, 3);
  }

  /** A constant integrand: from pass 4 on the pair is (a, a). */
  lemma {:induction false} ConstantLaterPass(s0: State, eval: Evaluator, c: real, k: nat)
    requires Initial(s0) && s0.pts[0].f == c && s0.ptf.f == c
    requires forall x :: eval(x) == Ok(c)
    requires k >= 4
    ensures Passes(s0, eval, k).Ok?
    ensures var t := Passes(s0, eval, k).value;
            var a := Area(c, s0.pts[0].x, s0.ptf.x);
      t.aitkens == Some(a) && t.aitkensNew == Some(a)
    decreases k
  {
    if k == 4 {
      ConstantThirdPass(s0, eval, c);
    } else {
      ConstantLaterPass(s0, eval, c, k - 1);
    }
    ConstantShift(s0, eval, c, k);
  }

  /**
   * A constant integrand c, with a = c * (xf - xi): the accelerated estimates run
   * 2a/3, 46a/45, a, a, ..., so the tracked pair is (2a/3, 46a/45) after two passes,
   * (46a/45, a) after three and (a, a) from four on.
   */
  lemma ConstantPasses(s0: State, eval: Evaluator, c: real, k: nat)
    requires Initial(s0) && s0.pts[0].f == c && s0.ptf.f == c
    requires forall x :: eval(x) == Ok(c)
    requires k >= 1
    ensures Passes(s0, eval, k).Ok?
    ensures var t := Passes(s0, eval, k).value;
            var a := Area(c, s0.pts[0].x, s0.ptf.x);
      && (k == 1 ==> t.aitkensNew == Some(2.0 * a / 3.0))
      && (k == 2 ==> t.aitkens == Some(2.0 * a / 3.0) && t.aitkensNew == Some(46.0 * a / 45.0))
      && (k == 3 ==> t.aitkens == Some(46.0 * a / 45.0) && t.aitkensNew == Some(a))
      && (k >= 4 ==> t.aitkens == Some(a) && t.aitkensNew == Some(a))
  {
    if k == 1 {
      ConstantFirstPass(s0, eval, c);
    } else if k == 2 {
      ConstantSecondPass(s0, eval, c);
    } else if k == 3 {
      ConstantThirdPass(s0, eval, c);
    } else {
      ConstantLaterPass(s0, eval, c, k);
    }
  }

  /** What the report is built from after k >= 2 passes over a constant integrand. */
  lemma ConstantExit(s0: State, eval: Evaluator, c: real, k: nat)
    requires Initial(s0) && s0.pts[0].f == c && s0.ptf.f == c
    requires forall x :: eval(x) == Ok(c)
    requires 2 <= k <= 4
    ensures Passes(s0, eval, k).Ok?
    ensures var t := Passes(s0, eval, k).value;
            var a := Area(c, s0.pts[0].x, s0.ptf.x);
      && t.pts[0].x == s0.pts[0].x && t.ptf.x == s0.ptf.x
      && t.number == Pow2(k)
      && t.aitkensNew == Some(if k == 2 then 46.0 * a / 45.0 else a)
  {
    ConstantPasses(s0, eval, c, k);
    PassesShape(s0, eval, k);
  }

  /**
   * The loop for an integrand that is c everywhere, from the initial state, with
   * a = c * (xf - xi): it stops after two passes when 16a/45 is within Epsilon, else after
   * three when a/45 is, else after four.
   */
  lemma ConstantRun(s0: State, eval: Evaluator, c: real, fuel: nat)
    requires Initial(s0) && s0.pts[0].f == c && s0.ptf.f == c
    requires forall x :: eval(x) == Ok(c)
    requires fuel >= 2
    ensures var a := Area(c, s0.pts[0].x, s0.ptf.x);
            var r := Run(s0, eval, fuel);
      && (Abs(16.0 * a / 45.0) <= Epsilon ==> r == Done(Passes(s0, eval, 2).value))
      && (fuel >= 3 && Abs(16.0 * a / 45.0) > Epsilon && Abs(a / 45.0) <= Epsilon ==>
            r == Done(Passes(s0, eval, 3).value))
      && (fuel >= 4 && Abs(a / 45.0) > Epsilon ==> r == Done(Passes(s0, eval, 4).value))
  {
    var a := Area(c, s0.pts[0].x, s0.ptf.x);
    ConstantPasses(s0, eval, c, 1);
    ConstantPasses(s0, eval, c, 2);
    var s1 := Passes(s0, eval, 1).value;
    var s2 := Passes(s0, eval, 2).value;
    assert Step(s0, eval) == Ok(s1);
    assert Step(s1, eval) == Ok(s2);
    RunOnce(s0, eval, fuel);
    RunOnce(s1, eval, fuel - 1);
    if Abs(16.0 * a / 45.0) > Epsilon && fuel >= 3 {
      ConstantPasses(s0, eval, c, 3);
      var s3 := Passes(s0, eval, 3).value;
      assert Step(s2, eval) == Ok(s3);
      RunOnce(s2, eval, fuel - 2);
      if Abs(a / 45.0) > Epsilon && fuel >= 4 {
        ConstantPasses(s0, eval, c, 4);
        var s4 := Passes(s0, eval, 4).value;
        assert Step(s3, eval) == Ok(s4);
        RunOnce(s3, eval, fuel - 3);
      }
    }
  }

  /**
   * The whole request for an integrand that is c everywhere, with a = c * (xf - xi): it reports
   * 46a/45 over 4 subdivisions when 16a/45 is within Epsilon, else a over 8 when a/45 is,
   * else a over 16.
   */
  lemma ConstantIntegrand(xiText: string, xfText: string, parse: Parser, eval: Evaluator, fuel: nat,
                          c: real, xi: real, xf: real)
    requires parse(xiText) == Ok(xi) && parse(xfText) == Ok(xf)
    requires forall x :: eval(x) == Ok(c)
    ensures var a := Area(c, xi, xf);
            var r := Integrate(xiText, xfText, parse, eval, fuel);
      && (fuel >= 2 && Abs(16.0 * a / 45.0) <= Epsilon ==>
            r == Computed(Report(46.0 * a / 45.0, xi, xf, Epsilon, 4)))
      && (fuel >= 3 && Abs(16.0 * a / 45.0) > Epsilon && Abs(a / 45.0) <= Epsilon ==>
            r == Computed(Report(a, xi, xf, Epsilon, 8)))
      && (fuel >= 4 && Abs(a / 45.0) > Epsilon ==>
            r == Computed(Report(a, xi, xf, Epsilon, 16)))
  {
    var s0 := Setup(xiText, xfText, parse, eval).value;
    assert eval(s0.pts[0].x) == Ok(s0.pts[0].f);
    assert eval(s0.ptf.x) == Ok(s0.ptf.f);
    if fuel >= 2 {
      ConstantRun(s0, eval, c, fuel);
      var a := Area(c, xi, xf);
      var k := if Abs(16.0 * a / 45.0) <= Epsilon then 2 else if Abs(a / 45.0) <= Epsilon then 3 else 4;
      if k <= fuel {
        ConstantExit(s0, eval, c, k);
        assert Pow2(2) == 4 && Pow2(3) == 8 && Pow2(4) == 16;
      }
    }
  }

  /** With zero spacing every raw estimate is zero. */
  lemma ZeroWidthRaw(s: State)
    requires s.dx == 0.0
    ensures RawEstimate(s) == 0.0
  {
    assert 4.0 * (s.dx / 2.0) / 3.0 == 0.0;
  }

  /** The loop from the initial state of a zero-width interval at x: two passes, all estimates zero. */
  lemma DegenerateRun(s0: State, eval: Evaluator, fuel: nat, x: real)
    requires Initial(s0) && s0.pts[0].x == x && s0.ptf.x == x
    requires eval(x).Ok?
    requires fuel >= 2
    ensures Run(s0, eval, fuel).Done?
    ensures var t := Run(s0, eval, fuel).state;
      && t.integral == Some(0.0) && t.aitkens == Some(0.0) && t.aitkensNew == Some(0.0)
      && (forall j :: 0 <= j < |t.pts| ==> t.pts[j].x == x)
      && t.ptf.x == x && t.number == 4
  {
    assert AllEvaluate(s0.pts, s0.dx / 2.0, eval);
    var s1 := Step(s0, eval).value;
    StepPoints(s0, eval);
    ZeroWidthRaw(s0);
    assert forall j :: 0 <= j < |s1.pts| ==> s1.pts[j].x == x;
    assert AllEvaluate(s1.pts, s1.dx / 2.0, eval);
    var s2 := Step(s1, eval).value;
    StepPoints(s1, eval);
    ZeroWidthRaw(s1);
    RunOnce(s0, eval, fuel);
    RunOnce(s1, eval, fuel - 1);
    assert forall j :: 0 <= j < |s2.pts| ==> s2.pts[j].x == x;
    assert !Continue(s2);
  }

  /**
   * A zero-width interval: every grid point sits at the one endpoint, every raw and accelerated
   * estimate is zero, and the loop stops after two passes with the integral 0 over 4 subdivisions.
   */
  lemma DegenerateInterval(xiText: string, xfText: string, parse: Parser, eval: Evaluator, fuel: nat, x: real)
    requires parse(xiText) == Ok(x) && parse(xfText) == Ok(x)
    requires eval(x).Ok?
    requires fuel >= 2
    ensures Integrate(xiText, xfText, parse, eval, fuel) == Computed(Report(0.0, x, x, Epsilon, 4))
  {
    var s0 := Setup(xiText, xfText, parse, eval).value;
    DegenerateRun(s0, eval, fuel, x);
  }
}
