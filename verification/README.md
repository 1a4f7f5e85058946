# Adaptive Simpson integrator: a Dafny model

This project models the integration handler of a small web calculator (`src/main.rs`,
`integrate`, lines 62-144). The handler does five things:

- It parses the two endpoint texts and evaluates the integrand at each.
- It repeatedly halves a uniform grid, forming an extended Simpson estimate from the old grid on each pass.
- It applies a Richardson/Aitken correction (a fifteenth of the change between successive raw estimates).
- It stops once two successive accelerated estimates agree to within 10^-12.
- It reports that estimate, the endpoints, the tolerance and the subdivision count.

The project also models the display normaliser that both handlers run on the expression
text before echoing it (lines 129-134 and 140, with an identical copy at lines 43-48).

Modules:

- `Wrappers` (`wrappers.dfy`): `Option` and `Result`.
- `Samples` (`samples.dfy`): the grid point `Pt`, the failure kinds, and the refinement of one grid (`Refine`, the inner `for mut pt in pts` loop). It also holds an independent extended Simpson formula (`Simpson`), the 1, 4, 2, ..., 4, 1 weighting, for the grid to be compared against. With an even number of intervals, as on every pass from 2 on, it is the composite Simpson rule; on the single interval of pass 1 it is (h/3)(y0 + y1), two-thirds of the trapezoid rule.
- `Quadrature` (`quadrature.dfy`):
  - loop state and endpoint setup;
  - one pass as a function (`Step`) and as the loop the handler writes (`Pass`, `Scan`);
  - k passes (`Passes`), the convergence loop with fuel (`Run`), and the whole request (`Integrate`).
- `QuadratureFacts` (`quadrature.dfy`): the grid invariant, the extended Simpson formula, the report, and the exact behaviour for constant integrands and for zero-width intervals.
- `Normalize` (`normalize.dfy`): left-to-right, non-overlapping replace-all and the two replacement chains.

Two behaviours of the code are easy to miss:

- **Zero-width interval.** A request with xi = xf reports 4 subdivisions. Both estimates are already 0 after pass 1, but the loop test needs both `aitkens` and `aitkens_new` finite, and `aitkens` only leaves its sentinel on pass 2 (`QuadratureFacts.DegenerateInterval`).
- **Constant integrand.** A constant integrand is not exact on the first pass. Pass 1 sums only the two endpoints with weight 0.5 each, which gives 2a/3 for the exact value a. The accelerated estimates then run 2a/3, 46a/45, a, a, and the loop stops after 2, 3 or 4 passes depending on the size of a (`QuadratureFacts.ConstantIntegrand`).

## Model

| member | source | states |
|---|---|---|
| Samples.Refine | src/main.rs:107-117 | the refinement succeeds exactly when the integrand can be evaluated one new step to the right of every old point; the refined grid has twice as many points; on failure the error is the first failing point from the left, reported at that old point's position |
| Samples.FirstFailure | src/main.rs:112-115 | a failure found by the left-to-right scan is always a failure at a new grid point, never an endpoint or parse failure |
| Samples.RefineContents | src/main.rs:108-117 | old point i reappears at position 2i with weight 1; position 2i+1 holds a new point dx to its right, weight 2, carrying the integrand's value there |
| Samples.WeightsAreHalfSimpson | src/main.rs:105-120 | with the weights 0.5, 2, 1, ..., 2 on the grid and 0.5 on the held-apart endpoint, twice the weighted sum equals the extended Simpson sum 1, 4, 2, ..., 4, 1 |
| Samples.SimpsonOneInterval | src/main.rs:105-118 | on the single interval of pass 1 the 1, 4, 2, ..., 4, 1 formula reduces to (h/3)(y0 + y1), two-thirds of the trapezoid rule, not Simpson's rule |
| Samples.RefineStopsAt | src/main.rs:112-115 | once the prefix before point i has refined and point i's new neighbour fails, the whole refinement fails there with that point's position and message |
| Quadrature.Endpoints | src/main.rs:69-87 | success exactly when every endpoint text parses and the integrand evaluates there; each pushed point carries the parsed x, the value there and weight 0.5; a failure is that of the first endpoint that fails |
| Quadrature.Setup | src/main.rs:68-102 | xi's parse or evaluation failure is reported before xf's; setup succeeds exactly when both endpoints parse and evaluate; then the loop starts from one grid point at xi, the final endpoint at xf, dx = xf - xi, count 1 and no estimates; the missing-endpoint branch is never taken |
| Quadrature.Accelerate | src/main.rs:121-126 | with no previous raw estimate the accelerated one is the raw one; otherwise 15 times it equals 16 times the new raw estimate minus the previous one |
| Quadrature.Step | src/main.rs:103-127 | a pass succeeds exactly when every new midpoint evaluates, and a failure is the first one from the left; it doubles the points and the count, halves dx, keeps the final endpoint, stores the raw estimate and shifts the accelerated pair |
| Quadrature.Scan | src/main.rs:105-117 | the handler's single scan computes the same grid (or the same failure) as the refinement and accumulates the final endpoint's share plus the grid's weighted sum |
| Quadrature.Pass | src/main.rs:104-127 | the loop body as written, with its running sum, the scaling by 4dx/3, the weight reset and the Aitken update, has exactly the result of one pass |
| Quadrature.PassesGrowth | src/main.rs:103-127 | after k passes the grid has 2^k times as many points and the count is 2^k times larger |
| Quadrature.Run | src/main.rs:103-128 | if the loop stops, its condition is false in the final state (both estimates present and within Epsilon); if it fails, the failure is at a new grid point; `RunIsPasses`, `RunFailedAt` and the two out-of-fuel lemmas give the passes that lead to each outcome |
| Quadrature.Integrate | src/main.rs:62-143 | a setup failure is the request's failure; after a successful setup the only failures are at new grid points; a missing endpoint is never reported |
| QuadratureFacts.StepPoints | src/main.rs:107-120 | a successful pass refines the grid: old points at even positions with their positions and values, new points one new step to their right with the integrand's value there |
| QuadratureFacts.StepKeepsGrid | src/main.rs:101-120 | a pass keeps the grid invariant: one point per subdivision, weights 0.5 then 2, 1, ..., 2, final endpoint of weight 0.5 one step past the last point, uniform spacing dx, first point unchanged |
| QuadratureFacts.GridSpan | src/main.rs:101-102 | on a grid with that shape the final endpoint lies count times dx to the right of the first point |
| QuadratureFacts.PassesShape | src/main.rs:96-127 | after k passes from setup: the grid invariant holds, points and count are 2^k, both endpoints are unchanged, the raw and latest accelerated estimates exist from pass 1 on and the older accelerated estimate from pass 2 on |
| QuadratureFacts.PassesLast | src/main.rs:104-127 | the state after pass k is one pass on from the state after pass k - 1: its raw estimate is that state's raw estimate, the older accelerated estimate is that state's newer one, and the newer one accelerates the new raw estimate against that state's raw estimate |
| QuadratureFacts.RunIsPasses | src/main.rs:103-128 | a stopped loop's state is the result of k whole passes for some k no more than the fuel, and the loop condition held before each of those passes, so k is the first pass after which it fails |
| QuadratureFacts.RunFailedAt | src/main.rs:103-117 | a failed loop made k successful passes for some k below the fuel, the loop condition held before each of them and before the next, and that next pass failed with the reported failure |
| QuadratureFacts.RunOutOfFuelState | src/main.rs:103-127 | a loop that runs out of fuel has made exactly fuel whole passes, and its state is theirs |
| QuadratureFacts.RunOutOfFuelContinues | src/main.rs:103-127 | a loop that runs out of fuel saw the loop condition hold before the first pass and after every one of its passes, none of which failed; so a stop or a failure within the fuel is always reported as such |
| QuadratureFacts.IntegrateReport | src/main.rs:96-143 | a computed report's endpoints are the parsed endpoint texts, both evaluable; its tolerance is 10^-12; its count is 2^k for some k of at least 2, so at least 4 |
| QuadratureFacts.RawIsSimpson | src/main.rs:105-118 | each pass's raw estimate is the extended Simpson formula over the grid it starts from, final endpoint included, at that grid's spacing |
| QuadratureFacts.IntegralIsSimpson | src/main.rs:105-127 | the raw estimate stored by pass k is the extended Simpson formula over the grid pass k started from |
| QuadratureFacts.AcceleratedIsSimpson | src/main.rs:118-126 | the newer accelerated estimate after pass 1 is the extended Simpson formula over the one-interval starting grid, (h/3)(y0 + y1); after pass k >= 2 it is the Aitken combination of the extended Simpson formula over the grids passes k - 1 and k started from |
| QuadratureFacts.StoppedPass | src/main.rs:103-128 | a stopped loop stopped at the first pass k after which the condition fails, with k >= 2; its two accelerated estimates exist and are within Epsilon; the newer one is the Aitken combination of the Simpson sums of passes k - 1 and k |
| QuadratureFacts.ReportedIntegral | src/main.rs:96-143 | the reported integral is the newer accelerated estimate of that first stopping pass k >= 2, within Epsilon of the older one, and equals the Aitken combination of the Simpson sums over the grids of passes k - 1 and k |
| QuadratureFacts.ConstantRaw | src/main.rs:105-118 | for a constant integrand c the raw estimate is 2/3 of c(xf - xi) on the one-interval grid and exactly c(xf - xi) on any even grid |
| QuadratureFacts.AccelerateCancelsQuarticError | src/main.rs:123-126 | the correction removes an error that shrinks sixteenfold from one pass to the next |
| QuadratureFacts.ConstantValues | src/main.rs:108-117 | with an integrand that is c everywhere no pass fails and every grid value stays c |
| QuadratureFacts.ConstantIntegral | src/main.rs:105-122 | with a constant integrand the raw estimates run 2a/3 on pass 1, then a, where a = c(xf - xi) |
| QuadratureFacts.ConstantShift | src/main.rs:121-127 | with a constant integrand, from pass 2 on the older accelerated estimate is the previous newer one and the newer one accelerates a against the previous raw estimate |
| QuadratureFacts.ConstantPasses | src/main.rs:121-127 | with a constant integrand the accelerated estimates run 2a/3, 46a/45, a, a, ... and the older estimate trails by one pass |
| QuadratureFacts.ConstantRun | src/main.rs:103-127 | with a constant integrand the loop stops after 2 passes when 16a/45 is within Epsilon, else after 3 when a/45 is, else after 4 |
| QuadratureFacts.ConstantIntegrand | src/main.rs:62-143 | the whole request with a constant integrand reports 46a/45 over 4 subdivisions, or a over 8, or a over 16, by the same thresholds |
| QuadratureFacts.DegenerateRun | src/main.rs:101-127 | on a zero-width interval every grid point sits at the one endpoint, every estimate is zero and the loop stops after two passes |
| QuadratureFacts.DegenerateInterval | src/main.rs:62-143 | a request with equal evaluable endpoints x reports integral 0 from x to x over 4 subdivisions |
| Normalize.ReplaceCharIsSubstitute | src/main.rs:132-134 | replace-all with a one-character pattern and replacement equals `Substitute`, the independent position-by-position reference in which each p becomes q and every other character stays |
| Normalize.ReplaceCharRemoves | src/main.rs:132-134 | a one-character replace leaves no occurrence of that character and brings in no character other than the replacement |
| Normalize.ReplaceNoLonger | src/main.rs:130-133 | replacing by something no longer than the pattern never lengthens the text |
| Normalize.ReplaceAbsent | src/main.rs:130-133 | without an occurrence of the pattern, replace-all leaves the text unchanged |
| Normalize.ReplaceShortens | src/main.rs:130-131 | with a strictly shorter replacement, any occurrence makes the text strictly shorter |
| Normalize.ReplaceUnchangedIff | src/main.rs:130-131 | with a strictly shorter replacement, the text is unchanged exactly when the pattern does not occur |
| Normalize.ReplaceCanRebuild | src/main.rs:131 | removing "%20" from "%2%200" leaves "%20": one pass of replace-all does not remove every occurrence it can create |
| Normalize.ReplaceEachNoLonger | src/main.rs:132-134 | the division loop never lengthens the text |
| Normalize.ReplaceEachAbsent | src/main.rs:132-134 | the division loop leaves a text with none of its patterns unchanged |
| Normalize.NormalizeExpression | src/main.rs:129-134 | the normalised expression contains no 'd' and no 'D' and is no longer than the input (the same chain is at lines 43-48) |
| Normalize.DisplayIntegrand | src/main.rs:140 | the echoed integrand contains no 'd', 'D' or 'X' and is no longer than the input |
| Normalize.NormalizeUnchangedIff | src/main.rs:129-134 | normalising leaves an expression unchanged exactly when it contains no "%5E", no "%20", no 'd' and no 'D' |

## Left out

- HTTP routing, HTML page text and message formatting are not modelled. A failure keeps its kind and message, not the page around it.
- The endpoint parser and the integrand evaluator of the `calculus` crate are not part of this model. They are parameters: pure functions from text or a real to a result.
- Floating point is not modelled. Values are exact reals, so rounding, overflow and NaN are out of scope. The `f64::INFINITY` sentinels are `None`. The model does not cover the loop test's `is_finite` checks on values the integrand itself returns as infinite or NaN.
- Epsilon is the exact real 10^-12. The rounding of `10_f64.powf(-12.)` is not modelled.
- The convergence loop has no bound in the handler. `Run` takes a fuel count, and `Unfinished` only means the fuel ran out. Termination for general integrands is not claimed.
- The two differentiation handlers (lines 24-59) are not modelled. Their copy of the normaliser (lines 43-48) is `NormalizeExpression`.
- Strings are sequences of characters, not UTF-8 bytes. Every pattern here is ASCII, so matching by character and by byte find the same occurrences.
- Replace-all with an empty pattern is excluded. The handler only replaces non-empty literal patterns.
- Quadrature.PassesGrowth: the count `number` is an `i32` in the handler (lines 102 and 104) and would overflow on pass 31. The model counts with an unbounded `nat`. The overflow is unreachable in practice: pass 31 starts from a grid of 2^30 points that the handler would have had to build first.
- Quadrature.Setup: the `pts.pop()` failure branch (lines 88-95) is modelled as `MissingEndpoint`, and its contract proves that branch is never taken.
- QuadratureFacts.ConstantIntegrand: exact results are proved only for constant integrands and for zero-width intervals. General integrands get the structural facts: the grid invariant, the extended Simpson formula and the report.
