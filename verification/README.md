# numericMethods-aproximation: the iteration engine in Dafny

This project models the three routines that do the numerical work of the
root-finding tool. It proves what their traces look like, over exact reals.

- **Regula falsi** (`interpolacion_lineal`, module `RegulaFalsi`).
  - Each step cuts the bracket `(a, b)` at the intercept `xr` of the secant and records `(i, a, b, xr, f(xr), error)`.
  - The step then keeps the half of the bracket on which the sign changes.
  - The run stops after `max_iter` steps, on a degenerate secant, on `|f(xr)| < eps`, or, when `use_tol` is set, on an error below `tol`.
- **Fixed point with optional Aitken Δ² acceleration** (`punto_fijo`, iteration part only, module `FixedPoint`).
  - Builds a trace of `(i, x, error)` and the list of visited points.
  - Standard mode applies `g` once per step.
  - Aitken mode applies `g` twice per step and extrapolates. It stops silently when the extrapolation's denominator is below `1e-12` in absolute value.
- **Bracket search** (`buscar_intervalos`, module `BracketSearch`).
  - Rejects a non-positive step and orders the two ends.
  - Samples `[a, b]` on the grid of `numpy.arange(a, b + delta / 2, delta)`, pulling an overshooting last point back onto `b`.
  - Reports every pair of neighbouring grid points whose values have a product `<= 0`.
  - Never scans the piece between the last grid point and `b` when the grid stops short of `b` (see "## Findings").
  - Skips a pair whose evaluation raises `ValueError`, `TypeError` or `ZeroDivisionError`.
  - The step `delta` defaults to `1.0` (Aproximation/validador_intervalos.py:9); the model takes it as an explicit argument.

Modelling choices:

- The user's function is a parameter.
  - The two iterators take it as `real -> real`.
  - The search takes it as `real -> Option<real>`, where `None` stands for an evaluation that raised one of the three caught exceptions.
- Machine epsilon (`2^-52`) and the Aitken threshold (`1e-12`) are exact real constants in module `Numeric`.
- Each iterator is given three ways:
  - a recursive function indexed by the steps that remain (`Run`, `StandardRun`, `AitkenRun`, `ScanFrom`);
  - record-by-record characterisations, proved to agree with that function;
  - a method that mirrors the source's loop with its `break`s, proved to compute the same result.

Files: `numeric.dfy` (shared vocabulary), `regula_falsi.dfy`,
`fixed_point.dfy`, `bracket_search.dfy`.

## Model

| member | source | states |
|---|---|---|
| `RegulaFalsi.Run` | Aproximation/metodo.py:23-55 | The passes from `i` on: at most as many records as passes left in `range(i, max_iter + 1)`, numbered `i, i+1, …` consecutively. `IterateIsTrace` and `TraceRecords` say what each record holds. |
| `RegulaFalsi.Iterate` | Aproximation/metodo.py:20-57 | The whole routine: at most `max_iter` records, numbered 1, 2, …. `IterateIsTrace` and `TraceIsIterate` pin down every record. |
| `RegulaFalsi.EstimateError` | Aproximation/metodo.py:36-39 | The error of a step is never negative and is zero exactly when the new intercept equals the previous estimate. |
| `RegulaFalsi.IterateIsTrace` | Aproximation/metodo.py:20-57 | The loop's trace meets the record-by-record description `IsTrace`. Every record is the secant step from the bracket and estimate its predecessor leaves. No record but the last met a stop rule. A trace shorter than its budget ends on a stop rule or in front of a degenerate secant. |
| `RegulaFalsi.TraceIsIterate` | Aproximation/metodo.py:20-57 | Converse of the above: any sequence meeting the description is the loop's trace, so the description determines it. |
| `RegulaFalsi.TraceLength` | Aproximation/metodo.py:23-41 | At most `max_iter` records, numbered 1, 2, … consecutively; none when `max_iter <= 0`. |
| `RegulaFalsi.TraceRecords` | Aproximation/metodo.py:21-55 | Each record's bracket is not degenerate (`abs(f(a) - f(b)) >= eps`), its `xr` is `b - f(b)(a-b)/(f(a)-f(b))`, and its `fr` is `f(xr)`. Record 1 starts from `(a, b)` and measures its error against `a`. Every later record starts from the bracket the update rule hands on and measures against the previous `xr`. |
| `RegulaFalsi.ErrorsNonNegative` | Aproximation/metodo.py:36-41 | Every record carries an error, and it is `>= 0`. |
| `RegulaFalsi.BracketUpdate` | Aproximation/metodo.py:50-53 | The next bracket is `(a, xr)` when `f(a)·f(xr) < 0`, otherwise `(xr, b)`; the other end is unchanged. |
| `RegulaFalsi.TraceStops` | Aproximation/metodo.py:28-48 | Every record but the last has `abs(fr) >= eps` and (`!use_tol` or `error >= tol`). A trace shorter than `max_iter` ends on `abs(fr) < eps`, on the tolerance, or because the next bracket (or the first) was degenerate. |
| `RegulaFalsi.SecantWithin` | Aproximation/metodo.py:32 | With `f(a)·f(b) <= 0`, the intercept lies between `a` and `b`. |
| `RegulaFalsi.NextKeepsBracket` | Aproximation/metodo.py:44-53 | A step that goes on (`abs(f(xr)) >= eps`) from a sign-changing bracket hands on a sign-changing bracket. |
| `RegulaFalsi.TraceKeepsBracket` | Aproximation/metodo.py:16-53 | Entered with `f(a)·f(b) <= 0`, every recorded bracket keeps `f(a)·f(b) <= 0` and holds its intercept. The caller checks that precondition at Aproximation/interfaz.py line 132. |
| `RegulaFalsi.RegulaFalsiLoop` | Aproximation/metodo.py:4-57 | The counted loop with its three `break`s returns exactly the trace the description determines. |
| `FixedPoint.StandardRun` | Aproximation/punto_fijo.py:39-50 | Standard passes from `i` on: at most the passes left, and exactly one visited point per record. `StandardTrace` and `StandardVisits` say what they hold. |
| `FixedPoint.AitkenRun` | Aproximation/punto_fijo.py:53-75 | Aitken passes from `i` on: at most the passes left, and two visited points per record, plus two more when the degenerate denominator ended the run. `AitkenTrace` and `AitkenVisits` say what they hold. |
| `FixedPoint.FixedPointIteration` | Aproximation/punto_fijo.py:35 | The visited points always start with the seed. |
| `FixedPoint.StandardTrace` | Aproximation/punto_fijo.py:39-50 | Standard mode: at most `max_iter` records. Record `k` is `(k, x_k, abs(x_k - x_(k-1)))`, where `x_k = g(x_(k-1))` and `x_0` is the seed. |
| `FixedPoint.StandardVisits` | Aproximation/punto_fijo.py:35-45 | Standard mode: the visited points are the seed followed by every recorded point, `1 + len(trace)` of them. |
| `FixedPoint.StandardIsIterate` | Aproximation/punto_fijo.py:39-50 | Standard mode agrees with plain repetition: record `k` holds `g^k(x0)` and `abs(g^k(x0) - g^(k-1)(x0))`. |
| `FixedPoint.AitkenTrace` | Aproximation/punto_fijo.py:53-75 | Aitken mode: at most `max_iter` records numbered 1, 2, …. Each record starts from the seed (first) or from the previous extrapolation. Its denominator `(x2-x1)-(x1-x)` is not below `1e-12` in size. It holds `x - (x1-x)²/den` and the distance from its starting point. |
| `FixedPoint.AitkenVisits` | Aproximation/punto_fijo.py:56-65 | Aitken mode: every step appends `g(s)` and `g(g(s))` for its starting point `s`, before the denominator test. That makes `1 + 2·len(trace)` points, or two more when the degenerate denominator ended the run. |
| `FixedPoint.TraceStops` | Aproximation/punto_fijo.py:47-73 | Either mode: every record before the last has `error >= tol`. A trace shorter than `max_iter` ends below `tol`, or, in Aitken mode only, on the degenerate denominator. |
| `FixedPoint.ErrorsNonNegative` | Aproximation/punto_fijo.py:42-68 | Either mode: no recorded error is negative. |
| `FixedPoint.AitkenAtFixedPoint` | Aproximation/punto_fijo.py:56-65 | Aitken mode seeded at an exact fixed point of `g` has a zero denominator. It returns an empty trace, with points `[x0, x0, x0]` when `max_iter >= 1`. |
| `FixedPoint.StandardLoop` | Aproximation/punto_fijo.py:39-50 | The standard loop with its `break` computes exactly the standard run. |
| `FixedPoint.AitkenLoop` | Aproximation/punto_fijo.py:53-75 | The Aitken loop with its two `break`s computes exactly the Aitken run, the points of the degenerate step included. |
| `FixedPoint.FixedPointLoop` | Aproximation/punto_fijo.py:33-77 | The whole iteration part, seed first, returns exactly `FixedPointIteration`'s trace and points in either mode. |
| `BracketSearch.Search` | Aproximation/validador_intervalos.py:26-27 | The search fails exactly when `delta <= 0`, whatever the ends and the function, and then with the argument error. |
| `BracketSearch.SearchSymmetric` | Aproximation/validador_intervalos.py:30-31 | Swapping `a` and `b` does not change the result. |
| `BracketSearch.Arange` | Aproximation/validador_intervalos.py:45 | The arange is `start + k·step` for `k = 0, 1, …` while below `stop`, and the next multiple would reach `stop`. |
| `BracketSearch.Grid` | Aproximation/validador_intervalos.py:45-47 | The grid has at least one point and starts at `a`. `GridSteps` and `GridShape` give the rest. |
| `BracketSearch.GridSteps` | Aproximation/validador_intervalos.py:45-47 | The grid starts at `a` and climbs by `delta`; only its last point may differ from `a + k·delta`, and then it is `b`. |
| `BracketSearch.GridShape` | Aproximation/validador_intervalos.py:45-47 | Every grid point lies in `[a, b]`, the points strictly increase, neighbours are at most `delta` apart, and the last point is within `delta / 2` of `b`. |
| `BracketSearch.EndNotAlwaysOnGrid` | Aproximation/validador_intervalos.py:44-47 | `b` need not be a grid point: over `[0, 1.4]` with step 1 the grid is `0, 1`. |
| `BracketSearch.ScanFrom` | Aproximation/validador_intervalos.py:49-65 | At most one interval per remaining pair of neighbouring points. `SearchExact` says which pairs, and `SearchOrdered` their order. |
| `BracketSearch.SearchExact` | Aproximation/validador_intervalos.py:49-65 | An interval is reported if and only if it is a neighbouring grid pair where both evaluations succeed with a product `<= 0`. |
| `BracketSearch.SearchOrdered` | Aproximation/validador_intervalos.py:49-67 | Reported intervals lie in `[min(a,b), max(a,b)]`, are non-empty, are at most `delta` wide, and come left to right. |
| `BracketSearch.SkipsFailedPoints` | Aproximation/validador_intervalos.py:53-65 | A point whose evaluation fails is the end of no reported interval, and it drops nothing else: every neighbouring grid pair that evaluates with a product `<= 0` is still reported. |
| `BracketSearch.RootAtGridPoint` | Aproximation/validador_intervalos.py:52-61 | An exact root at an interior grid point, with both neighbours evaluable, makes both pairs around it reported. |
| `BracketSearch.RootReportedTwice` | Aproximation/validador_intervalos.py:52-61 | Example: `f(x) = x` over `[-1, 1]` with step 1 reports `(-1, 0)` and `(0, 1)`, so the root at 0 is reported twice. |
| `BracketSearch.ScanLoop` | Aproximation/validador_intervalos.py:49-65 | The loop over neighbouring pairs collects exactly the scan's intervals. |
| `BracketSearch.FindBrackets` | Aproximation/validador_intervalos.py:26-67 | The routine as written returns exactly `Search`. It rejects the step, swaps the ends, builds and clamps the grid, and scans it. |
| `BracketSearch.MissesRootNearEnd` | Aproximation/validador_intervalos.py:44-47 | As written, the grid can stop short of `b`: over `[0, 1]` with step `0.3`, `f(x) = x - 0.95` changes sign between the ends, yet nothing is reported. |
| `BracketSearch.CoveringGrid` | Aproximation/validador_intervalos.py:44-47 | Corrected grid: it starts at `a` and always ends on `b`. `CoveringGridShape` keeps the points in `[a, b]`, rising, and at most `delta` apart. |
| `BracketSearch.CoveringSearchFindsSignChange` | Aproximation/validador_intervalos.py:11 | Corrected search: over the covering grid, a function defined on all of `[a, b]` with `f(a)·f(b) <= 0` and `a != b` yields at least one interval, which is what the routine's docstring promises. |
| `BracketSearch.CoveringFindsRootNearEnd` | Aproximation/validador_intervalos.py:44-47 | The corrected search reports `(0.9, 1)` for the example the source's grid misses. |

## Findings

`Search` and `FindBrackets` model the code as written. `CoveringGrid` and
`CoveringSearch` are the corrected search, kept alongside them.

| source | as written | input that shows it | evidently intended | confidence | as-written member | corrected member |
|---|---|---|---|---|---|---|
| Aproximation/validador_intervalos.py:44-47 | The grid is `np.arange(a, b + delta/2, delta)`. Only an overshooting last point is pulled back onto `b`. A last point short of `b` is kept, so the piece between it and `b` is never scanned. | `f(x) = x - 0.95`, `a = 0`, `b = 1`, `delta = 0.3`: the grid is `0, 0.3, 0.6, 0.9` and the result is empty, although `f(0) < 0 < f(1)`. | `b` is always a grid point, so the whole of `[a, b]` is searched, as the docstring at line 11 says. | medium, not executed | `BracketSearch.MissesRootNearEnd` | `BracketSearch.CoveringSearchFindsSignChange` |

## Left out

- Parsing of the function text with SymPy and `lambdify` (Aproximation/punto_fijo.py:23-31, Aproximation/validador_intervalos.py:34-42). It is a foreign library call. The function is a parameter instead, so the parse-error path is not modelled.
- `punto_fijo`'s extra results `g_lambd`, `f_lambd` and `g_expr`. They are the parsed functions, which the model takes as input.
- IEEE-754 arithmetic. All arithmetic is exact:
  - `np.finfo(float).eps` is the exact constant `2^-52`;
  - rounding, overflow, NaN and infinities are not modelled;
  - `numpy.arange` is modelled without its floating-point drift.
- `round(·, 8)` on reported intervals (Aproximation/validador_intervalos.py:61). It is display rounding, and the model reports the grid points themselves.
- The `error is not None` guard of Aproximation/metodo.py:47. The error is always computed, so the guard always holds. The model drops it and proves that every record carries a non-negative error. The caller prints `-` for a missing error (Aproximation/interfaz.py:148), but the routine always computes one.
- Printed warnings (Aproximation/metodo.py:29, Aproximation/punto_fijo.py:64). They are output only.
- Convergence and rate of convergence. They depend on analytic properties of `f` and `g`, not on what the code guarantees.
- Exceptions raised by `g` in `punto_fijo`. The source does not catch them, so they would abort the call; `g` is total in the model.
- Exceptions raised by `f` in `interpolacion_lineal` (Aproximation/metodo.py:24-25,33). The source does not catch them, so they would abort the call; `f` is total in the model.
- Exceptions other than `ValueError`, `TypeError` and `ZeroDivisionError` in the bracket search (Aproximation/validador_intervalos.py:63). They are not caught and would abort the call; the model has no way to raise them.
- The GUI, the plotting modules and the caller's interval selection (Aproximation/interfaz.py, Aproximation/graficador.py, Aproximation/graficador_punto_fijo.py). These are presentation and I/O.
