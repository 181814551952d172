/** The regula-falsi (linear interpolation) iterator of
    `Aproximation/metodo.py`.

    Starting from a bracket `(a, b)`, each step draws the secant through
    `(a, f(a))` and `(b, f(b))`, takes its intercept `xr`, records
    `(i, a, b, xr, f(xr), error)` and keeps the half of the bracket on which
    the sign changes. The loop runs for at most `maxIter` steps and stops
    early on a degenerate secant, on `|f(xr)|` below machine epsilon, or,
    when asked to, on an error below the tolerance.

    The iterator is given three ways: `Iterate` follows the loop step by
    step, `IsTrace` says, record by record, what a trace of the iterator
    must look like, and `RegulaFalsiLoop` is the loop with its `break`s.
    `IterateIsTrace` and `TraceIsIterate` show that the first two agree on
    every input, and the loop is proved to meet `IsTrace`. */
module RegulaFalsi {
  import opened Numeric

  /** One row of the trace: the step number, the bracket the step started
      from, the interpolated point, the function value there and the
      estimated error. The error is always present. */
  datatype Record = Record(index: int, a: real, b: real, xr: real, fr: real, error: real)

  /** Everything a run depends on besides the starting bracket. */
  datatype Params = Params(f: real -> real, tol: real, maxIter: int, useTol: bool)

  /** The secant through `(a, f(a))` and `(b, f(b))` is too flat to be cut. */
  predicate Degenerate(f: real -> real, a: real, b: real)
  {
    Abs(f(a) - f(b)) < MachineEpsilon
  }

  /** The intercept of the secant with the x axis. */
  function Secant(f: real -> real, a: real, b: real): real
    requires f(a) != f(b)
  {
    b - f(b) * (a - b) / (f(a) - f(b))
  }

  /** Relative change of the estimate, or the absolute change when the new
      estimate is zero. */
  function EstimateError(xr: real, xrOld: real): (e: real)
    ensures e >= 0.0
    ensures e == 0.0 <==> xr == xrOld
  {
    if xr != 0.0 then Abs((xr - xrOld) / xr) else Abs(xr - xrOld)
  }

  /** The two early stops that follow a recorded step, in the order they
      are tested: `|f(xr)|` below machine epsilon, then the tolerance. */
  predicate Converged(p: Params, r: Record)
  {
    Abs(r.fr) < MachineEpsilon || (p.useTol && r.error < p.tol)
  }

  /** The bracket of the step after `r`: the left part `(a, xr)` when
      `f(a)` and `f(xr)` have strictly opposite signs, the right part
      `(xr, b)` otherwise. */
  function NextBracket(f: real -> real, r: Record): (real, real)
  {
    if f(r.a) * r.fr < 0.0 then (r.a, r.xr) else (r.xr, r.b)
  }

  /** The record of step `i` from bracket `(a, b)` with previous estimate
      `xrOld`. */
  function Step(p: Params, a: real, b: real, xrOld: real, i: int): Record
    requires !Degenerate(p.f, a, b)
  {
    var xr := Secant(p.f, a, b);
    Record(i, a, b, xr, p.f(xr), EstimateError(xr, xrOld))
  }

  /** Steps `i`, `i + 1`, ... up to `p.maxIter`, from bracket `(a, b)`. */
  function Run(p: Params, a: real, b: real, xrOld: real, i: int): (t: seq<Record>)
    ensures |t| <= StepsLeft(p.maxIter, i)
    ensures forall k :: 0 <= k < |t| ==> t[k].index == i + k
    decreases StepsLeft(p.maxIter, i)
  {
    if i > p.maxIter || Degenerate(p.f, a, b) then []
    else
      var r := Step(p, a, b, xrOld, i);
      if Converged(p, r) then [r]
      else
        var next := NextBracket(p.f, r);
        [r] + Run(p, next.0, next.1, r.xr, i + 1)
  }

  /** The whole run: steps numbered from 1, and the left end of the
      starting bracket standing in for the previous estimate of step 1. */
  function Iterate(p: Params, a: real, b: real): (t: seq<Record>)
    ensures |t| <= StepsLeft(p.maxIter, 1)
    ensures forall k :: 0 <= k < |t| ==> t[k].index == k + 1
  {
    Run(p, a, b, a, 1)
  }

  // ---------------------------------------------------------------------
  // What a trace looks like, record by record

  /** The bracket step `k` (counted from 0) of trace `t` starts from. */
  function BracketBefore(f: real -> real, a0: real, b0: real, t: seq<Record>, k: int): (real, real)
    requires 0 <= k <= |t|
  {
    if k == 0 then (a0, b0) else NextBracket(f, t[k - 1])
  }

  /** The estimate step `k` (counted from 0) of trace `t` compares with. */
  function EstimateBefore(x0: real, t: seq<Record>, k: int): real
    requires 0 <= k <= |t|
  {
    if k == 0 then x0 else t[k - 1].xr
  }

  /** Record `k` is the step taken from the bracket and estimate that the
      records before it leave behind. */
  predicate RecordFits(p: Params, a0: real, b0: real, x0: real, i: int, t: seq<Record>, k: int)
    requires 0 <= k < |t|
  {
    var ab := BracketBefore(p.f, a0, b0, t, k);
    && t[k].index == i + k
    && t[k].a == ab.0
    && t[k].b == ab.1
    && !Degenerate(p.f, ab.0, ab.1)
    && t[k].xr == Secant(p.f, ab.0, ab.1)
    && t[k].fr == p.f(t[k].xr)
    && t[k].error == EstimateError(t[k].xr, EstimateBefore(x0, t, k))
  }

  /** A run of steps `i`, `i + 1`, ... from bracket `(a0, b0)` and
      previous estimate `x0`: within budget, every record fits, no record
      but the last meets a stopping rule, and a run cut short of its budget
      ends on a stopping rule or in front of a degenerate secant. */
  predicate IsRun(p: Params, a0: real, b0: real, x0: real, i: int, t: seq<Record>)
  {
    && |t| <= StepsLeft(p.maxIter, i)
    && (forall k :: 0 <= k < |t| ==> RecordFits(p, a0, b0, x0, i, t, k))
    && (forall k :: 0 <= k < |t| - 1 ==> !Converged(p, t[k]))
    && (|t| < StepsLeft(p.maxIter, i) ==>
          (|t| > 0 && Converged(p, t[|t| - 1]))
          || Degenerate(p.f, BracketBefore(p.f, a0, b0, t, |t|).0, BracketBefore(p.f, a0, b0, t, |t|).1))
  }

  /** A trace of the whole iterator. */
  predicate IsTrace(p: Params, a0: real, b0: real, t: seq<Record>)
  {
    IsRun(p, a0, b0, a0, 1, t)
  }

  // ---------------------------------------------------------------------
  // The loop and the record-by-record description agree

  /** Dropping the first record of a run leaves the run that starts from
      the bracket and estimate the first record hands on. */
  lemma {:induction false} RunTail(p: Params, a0: real, b0: real, x0: real, i: int, t: seq<Record>)
    requires IsRun(p, a0, b0, x0, i, t)
    requires |t| > 0 && !Converged(p, t[0])
    ensures IsRun(p, NextBracket(p.f, t[0]).0, NextBracket(p.f, t[0]).1, t[0].xr, i + 1, t[1..])
  {
    var nb := NextBracket(p.f, t[0]);
    var u := t[1..];
    var j := i + 1;
    forall k | 0 <= k < |u|
      ensures RecordFits(p, nb.0, nb.1, t[0].xr, j, u, k)
    {
      assert RecordFits(p, a0, b0, x0, i, t, k + 1);
      assert BracketBefore(p.f, nb.0, nb.1, u, k) == BracketBefore(p.f, a0, b0, t, k + 1);
      assert EstimateBefore(t[0].xr, u, k) == EstimateBefore(x0, t, k + 1);
    }
    forall k | 0 <= k < |u| - 1
      ensures !Converged(p, u[k])
    {
      assert u[k] == t[k + 1];
    }
    if |u| < StepsLeft(p.maxIter, i + 1) {
      assert BracketBefore(p.f, nb.0, nb.1, u, |u|) == BracketBefore(p.f, a0, b0, t, |t|);
    }
  }

  /** Prepending the step taken from `(a, b)` to a run from the bracket it
      hands on gives a run from `(a, b)`. */
  lemma {:induction false} RunCons(p: Params, a: real, b: real, x0: real, i: int, u: seq<Record>)
    requires i <= p.maxIter && !Degenerate(p.f, a, b)
    requires !Converged(p, Step(p, a, b, x0, i))
    requires IsRun(p, NextBracket(p.f, Step(p, a, b, x0, i)).0, NextBracket(p.f, Step(p, a, b, x0, i)).1,
                   Step(p, a, b, x0, i).xr, i + 1, u)
    ensures IsRun(p, a, b, x0, i, [Step(p, a, b, x0, i)] + u)
  {
    var r := Step(p, a, b, x0, i);
    var nb := NextBracket(p.f, r);
    var t := [r] + u;
    assert RecordFits(p, a, b, x0, i, t, 0);
    forall k | 1 <= k < |t|
      ensures RecordFits(p, a, b, x0, i, t, k)
    {
      assert t[k] == u[k - 1];
      assert RecordFits(p, nb.0, nb.1, r.xr, i + 1, u, k - 1);
      assert BracketBefore(p.f, nb.0, nb.1, u, k - 1) == BracketBefore(p.f, a, b, t, k);
      assert EstimateBefore(r.xr, u, k - 1) == EstimateBefore(x0, t, k);
    }
    forall k | 0 <= k < |t| - 1
      ensures !Converged(p, t[k])
    {
      if k > 0 {
        assert t[k] == u[k - 1];
      }
    }
    if |t| < StepsLeft(p.maxIter, i) {
      assert BracketBefore(p.f, nb.0, nb.1, u, |u|) == BracketBefore(p.f, a, b, t, |t|);
    }
  }

  /** Every run the loop produces meets the record-by-record description. */
  lemma {:induction false} RunIsRun(p: Params, a: real, b: real, x0: real, i: int)
    ensures IsRun(p, a, b, x0, i, Run(p, a, b, x0, i))
    decreases StepsLeft(p.maxIter, i)
  {
    if i > p.maxIter || Degenerate(p.f, a, b) {
    } else {
      var r := Step(p, a, b, x0, i);
      if Converged(p, r) {
        var t := Run(p, a, b, x0, i);
        assert t == [r];
        assert RecordFits(p, a, b, x0, i, t, 0);
      } else {
        var nb := NextBracket(p.f, r);
        RunIsRun(p, nb.0, nb.1, r.xr, i + 1);
        RunCons(p, a, b, x0, i, Run(p, nb.0, nb.1, r.xr, i + 1));
      }
    }
  }

  /** The record-by-record description leaves no freedom: the loop's run is
      the only sequence that meets it. */
  lemma {:induction false} RunIsUnique(p: Params, a: real, b: real, x0: real, i: int, t: seq<Record>)
    requires IsRun(p, a, b, x0, i, t)
    ensures t == Run(p, a, b, x0, i)
    decreases StepsLeft(p.maxIter, i)
  {
    if i > p.maxIter {
      assert |t| == 0;
    } else if |t| == 0 {
      assert Degenerate(p.f, a, b);
    } else {
      assert RecordFits(p, a, b, x0, i, t, 0);
      var r := Step(p, a, b, x0, i);
      assert t[0] == r;
      if Converged(p, r) {
        assert |t| == 1;
        assert t == [r];
      } else {
        var nb := NextBracket(p.f, r);
        RunTail(p, a, b, x0, i, t);
        RunIsUnique(p, nb.0, nb.1, r.xr, i + 1, t[1..]);
        assert t == [r] + t[1..];
      }
    }
  }

  /** The iterator's trace meets the record-by-record description. */
  lemma IterateIsTrace(p: Params, a: real, b: real)
    ensures IsTrace(p, a, b, Iterate(p, a, b))
  {
    RunIsRun(p, a, b, a, 1);
  }

  /** Any sequence that meets the description is the iterator's trace. */
  lemma TraceIsIterate(p: Params, a: real, b: real, t: seq<Record>)
    requires IsTrace(p, a, b, t)
    ensures t == Iterate(p, a, b)
  {
    RunIsUnique(p, a, b, a, 1, t);
  }

  // ---------------------------------------------------------------------
  // Properties of the trace, one at a time

  /** At most `maxIter` records, numbered 1, 2, ... in order; none at all
      when `maxIter <= 0`. */
  lemma TraceLength(p: Params, a: real, b: real, t: seq<Record>)
    requires t == Iterate(p, a, b)
    ensures p.maxIter <= 0 ==> t == []
    ensures p.maxIter > 0 ==> |t| <= p.maxIter
    ensures forall k :: 0 <= k < |t| ==> t[k].index == k + 1
  {
    IterateIsTrace(p, a, b);
  }

  /** Each record holds its own bracket, the secant intercept of that
      bracket, the function value there, and its error measured against the
      left end of the starting bracket (record 1) or the previous intercept;
      consecutive brackets follow the sign rule. */
  lemma TraceRecords(p: Params, a: real, b: real, t: seq<Record>)
    requires t == Iterate(p, a, b)
    ensures |t| > 0 ==> t[0].a == a && t[0].b == b && t[0].error == EstimateError(t[0].xr, a)
    ensures forall k :: 0 <= k < |t| ==>
      && !Degenerate(p.f, t[k].a, t[k].b)
      && t[k].xr == Secant(p.f, t[k].a, t[k].b)
      && t[k].fr == p.f(t[k].xr)
    ensures forall k :: 0 < k < |t| ==>
      && (t[k].a, t[k].b) == NextBracket(p.f, t[k - 1])
      && t[k].error == EstimateError(t[k].xr, t[k - 1].xr)
  {
    IterateIsTrace(p, a, b);
    forall k | 0 <= k < |t|
      ensures && !Degenerate(p.f, t[k].a, t[k].b)
              && t[k].xr == Secant(p.f, t[k].a, t[k].b)
              && t[k].fr == p.f(t[k].xr)
    {
      assert RecordFits(p, a, b, a, 1, t, k);
    }
    forall k | 0 < k < |t|
      ensures && (t[k].a, t[k].b) == NextBracket(p.f, t[k - 1])
              && t[k].error == EstimateError(t[k].xr, t[k - 1].xr)
    {
      assert RecordFits(p, a, b, a, 1, t, k);
    }
    if |t| > 0 {
      assert RecordFits(p, a, b, a, 1, t, 0);
    }
  }

  /** The error column is never empty and never negative. */
  lemma ErrorsNonNegative(p: Params, a: real, b: real, t: seq<Record>)
    requires t == Iterate(p, a, b)
    ensures forall k :: 0 <= k < |t| ==> t[k].error >= 0.0
  {
    IterateIsTrace(p, a, b);
    forall k | 0 <= k < |t|
      ensures t[k].error >= 0.0
    {
      assert RecordFits(p, a, b, a, 1, t, k);
    }
  }

  /** The bracket update replaces exactly one end by the intercept: the
      right end when `f(a) * f(xr) < 0`, the left end otherwise. */
  lemma BracketUpdate(p: Params, a: real, b: real, t: seq<Record>)
    requires t == Iterate(p, a, b)
    ensures forall k :: 0 < k < |t| ==>
      if p.f(t[k - 1].a) * t[k - 1].fr < 0.0
      then t[k].a == t[k - 1].a && t[k].b == t[k - 1].xr
      else t[k].a == t[k - 1].xr && t[k].b == t[k - 1].b
  {
    TraceRecords(p, a, b, t);
  }

  /** The stopping rules: every record but the last failed both early
      stops; a trace shorter than `maxIter` ends on `|f(xr)| < eps`, on the
      tolerance (when enabled), or right before a degenerate secant. */
  lemma TraceStops(p: Params, a: real, b: real, t: seq<Record>)
    requires t == Iterate(p, a, b)
    ensures forall k :: 0 <= k < |t| - 1 ==>
      Abs(t[k].fr) >= MachineEpsilon && (!p.useTol || t[k].error >= p.tol)
    ensures |t| < p.maxIter ==>
      || (|t| > 0 && Abs(t[|t| - 1].fr) < MachineEpsilon)
      || (|t| > 0 && p.useTol && t[|t| - 1].error < p.tol)
      || (|t| == 0 && Degenerate(p.f, a, b))
      || (|t| > 0 && Degenerate(p.f, NextBracket(p.f, t[|t| - 1]).0, NextBracket(p.f, t[|t| - 1]).1))
  {
    IterateIsTrace(p, a, b);
  }

  /** The secant's intercept as a point of the segment from `a` to `b`. */
  lemma SecantAsCombination(f: real -> real, a: real, b: real)
    requires f(a) != f(b)
    ensures Secant(f, a, b) == a + f(a) / (f(a) - f(b)) * (b - a)
  {
    var fa, fb := f(a), f(b);
    var s := fa / (fa - fb);
    assert fb * (a - b) / (fa - fb) == (b - a) - s * (b - a);
  }

  /** With a sign change, `f(a) / (f(a) - f(b))` is a weight in `[0, 1]`. */
  lemma SignChangeWeight(fa: real, fb: real)
    requires fa * fb <= 0.0 && fa != fb
    ensures 0.0 <= fa / (fa - fb) <= 1.0
  {
    if fa > 0.0 {
      assert fb <= 0.0;
    } else if fa < 0.0 {
      assert fb >= 0.0;
    }
  }

  /** A weight in `[0, 1]` scales a length to no more than itself. */
  lemma ScaleDown(s: real, d: real)
    requires 0.0 <= s <= 1.0 && d >= 0.0
    ensures 0.0 <= s * d <= d
  {
    assert (1.0 - s) * d >= 0.0;
  }

  /** A weight in `[0, 1]` keeps the point between the two ends. */
  lemma Between(a: real, b: real, s: real)
    requires 0.0 <= s <= 1.0
    ensures Min(a, b) <= a + s * (b - a) <= Max(a, b)
  {
    var d := b - a;
    var m := s * d;
    if a <= b {
      ScaleDown(s, d);
      assert m <= d;
    } else {
      ScaleDown(s, -d);
      assert s * -d == -m;
    }
  }

  /** The intercept of a sign-changing secant lies between its two ends. */
  lemma SecantWithin(f: real -> real, a: real, b: real)
    requires f(a) * f(b) <= 0.0 && f(a) != f(b)
    ensures Min(a, b) <= Secant(f, a, b) <= Max(a, b)
  {
    SecantAsCombination(f, a, b);
    SignChangeWeight(f(a), f(b));
    Between(a, b, f(a) / (f(a) - f(b)));
  }

  /** A root at the left end is where the secant cuts the axis. */
  lemma SecantAtRoot(f: real -> real, a: real, b: real)
    requires f(a) != f(b)
    ensures f(a) == 0.0 ==> Secant(f, a, b) == a
  {
    if f(a) == 0.0 {
      var fb := f(b);
      assert fb * (a - b) / (0.0 - fb) == b - a;
    }
  }

  /** One step of a trace keeps the sign change of the bracket before it. */
  lemma StepKeepsBracket(p: Params, a: real, b: real, t: seq<Record>, k: nat)
    requires IsTrace(p, a, b, t)
    requires 0 < k < |t|
    requires p.f(t[k - 1].a) * p.f(t[k - 1].b) <= 0.0
    ensures p.f(t[k].a) * p.f(t[k].b) <= 0.0
  {
    assert RecordFits(p, a, b, a, 1, t, k - 1);
    assert RecordFits(p, a, b, a, 1, t, k);
    assert !Converged(p, t[k - 1]);
    NextKeepsBracket(p, t[k - 1]);
  }

  /** Entered with `f(a) * f(b) <= 0` (the caller's check), every recorded
      bracket keeps `f(a) * f(b) <= 0`. */
  lemma {:induction false} KeepsBracketAt(p: Params, a: real, b: real, t: seq<Record>, k: nat)
    requires IsTrace(p, a, b, t) && p.f(a) * p.f(b) <= 0.0
    requires k < |t|
    ensures p.f(t[k].a) * p.f(t[k].b) <= 0.0
  {
    if k == 0 {
      assert RecordFits(p, a, b, a, 1, t, 0);
    } else {
      KeepsBracketAt(p, a, b, t, k - 1);
      StepKeepsBracket(p, a, b, t, k);
    }
  }

  /** Entered with `f(a) * f(b) <= 0` (the caller's check), every recorded
      bracket keeps `f(a) * f(b) <= 0` and holds its intercept. */
  lemma TraceKeepsBracket(p: Params, a: real, b: real, t: seq<Record>)
    requires p.f(a) * p.f(b) <= 0.0
    requires t == Iterate(p, a, b)
    ensures forall k :: 0 <= k < |t| ==>
      && p.f(t[k].a) * p.f(t[k].b) <= 0.0
      && Min(t[k].a, t[k].b) <= t[k].xr <= Max(t[k].a, t[k].b)
  {
    IterateIsTrace(p, a, b);
    forall k | 0 <= k < |t|
      ensures && p.f(t[k].a) * p.f(t[k].b) <= 0.0
              && Min(t[k].a, t[k].b) <= t[k].xr <= Max(t[k].a, t[k].b)
    {
      BracketedAt(p, a, b, t, k);
    }
  }

  /** Record `k` of a trace entered with `f(a) * f(b) <= 0` is a bracket
      holding its intercept. */
  lemma BracketedAt(p: Params, a: real, b: real, t: seq<Record>, k: nat)
    requires IsTrace(p, a, b, t) && p.f(a) * p.f(b) <= 0.0
    requires k < |t|
    ensures p.f(t[k].a) * p.f(t[k].b) <= 0.0
    ensures Min(t[k].a, t[k].b) <= t[k].xr <= Max(t[k].a, t[k].b)
  {
    KeepsBracketAt(p, a, b, t, k);
    assert RecordFits(p, a, b, a, 1, t, k);
    RecordWithin(p.f, t[k]);
  }

  /** `SecantWithin` stated about a record rather than its inputs. */
  lemma RecordWithin(f: real -> real, r: Record)
    requires f(r.a) * f(r.b) <= 0.0 && f(r.a) != f(r.b)
    requires r.xr == Secant(f, r.a, r.b)
    ensures Min(r.a, r.b) <= r.xr <= Max(r.a, r.b)
  {
    SecantWithin(f, r.a, r.b);
  }

  /** The update rule keeps `f(a) * f(b) <= 0`: with exact arithmetic
      `f(a) = 0` puts the intercept at `a` itself, where `|f(xr)| < eps`
      stops the loop, so a step that goes on has `f(a) != 0` and keeps the
      half whose ends still differ in sign. */
  lemma NextKeepsBracket(p: Params, r: Record)
    requires p.f(r.a) * p.f(r.b) <= 0.0 && p.f(r.a) != p.f(r.b)
    requires r.xr == Secant(p.f, r.a, r.b) && r.fr == p.f(r.xr)
    requires Abs(r.fr) >= MachineEpsilon
    ensures p.f(NextBracket(p.f, r).0) * p.f(NextBracket(p.f, r).1) <= 0.0
  {
    var fa, fb := p.f(r.a), p.f(r.b);
    SecantAtRoot(p.f, r.a, r.b);
    assert fa != 0.0;
    if fa * r.fr >= 0.0 {
      if fa > 0.0 {
        assert fb <= 0.0 && r.fr >= 0.0;
      } else {
        assert fb >= 0.0 && r.fr <= 0.0;
      }
      assert r.fr * fb <= 0.0;
    }
  }

  // ---------------------------------------------------------------------
  // The loop as written

  /** The counted loop of the source, with its `break`s. */
  method RegulaFalsiLoop(p: Params, a: real, b: real) returns (t: seq<Record>)
    ensures IsTrace(p, a, b, t)
  {
    t := [];
    var lo, hi, xrOld := a, b, a;
    var i := 1;
    while i <= p.maxIter
      invariant 1 <= i
      invariant t + Run(p, lo, hi, xrOld, i) == Iterate(p, a, b)
    {
      if Degenerate(p.f, lo, hi) {
        assert Run(p, lo, hi, xrOld, i) == [];
        break;
      }
      var r := Step(p, lo, hi, xrOld, i);
      t := t + [r];
      if Abs(r.fr) < MachineEpsilon {
        assert Run(p, lo, hi, xrOld, i) == [r];
        break;
      }
      if p.useTol && r.error < p.tol {
        assert Run(p, lo, hi, xrOld, i) == [r];
        break;
      }
      var nb := NextBracket(p.f, r);
      lo, hi := nb.0, nb.1;
      xrOld := r.xr;
      i := i + 1;
    }
    assert t == Iterate(p, a, b);
    IterateIsTrace(p, a, b);
  }
}
