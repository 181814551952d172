/** The fixed-point iterator of `Aproximation/punto_fijo.py`, in both of
    its modes.

    Standard mode repeats `x := g(x)` and records `(i, x, |x - previous x|)`.
    Aitken mode takes two applications of `g` from the current point,
    extrapolates the three values with Aitken's delta-squared formula and
    records `(i, extrapolated x, |extrapolated x - current x|)`, restarting
    from the extrapolated point. Both modes run at most `maxIter` outer
    steps and stop early once the error drops below the tolerance; Aitken
    mode also stops, without a record, when its denominator is too close to
    zero. Beside the trace, each run returns the points it visited, which
    the plotting collaborator draws as a staircase. */
module FixedPoint {
  import opened Numeric

  /** One row of the trace: the step number, the new point and its
      distance from the point the step started from. */
  datatype Record = Record(index: int, x: real, error: real)

  /** What a run hands back: the trace and the visited points. */
  datatype Outcome = Outcome(trace: seq<Record>, points: seq<real>)

  /** Everything a run depends on besides the starting point. */
  datatype Params = Params(g: real -> real, tol: real, maxIter: int)

  /** The denominator of Aitken's delta-squared formula for three
      consecutive iterates `x`, `x1 = g(x)`, `x2 = g(x1)`. */
  function AitkenDenominator(x: real, x1: real, x2: real): real
  {
    (x2 - x1) - (x1 - x)
  }

  /** The denominator is too close to zero to divide by. */
  predicate AitkenDegenerate(x: real, x1: real, x2: real)
  {
    Abs(AitkenDenominator(x, x1, x2)) < AitkenThreshold
  }

  /** Aitken's delta-squared extrapolation of three consecutive iterates. */
  function AitkenPoint(x: real, x1: real, x2: real): real
    requires !AitkenDegenerate(x, x1, x2)
  {
    x - (x1 - x) * (x1 - x) / AitkenDenominator(x, x1, x2)
  }

  /** The point step `k` (counted from 0) of trace `t` starts from: the
      seed for the first step, the previous record's point afterwards. */
  function StartOf(x0: real, t: seq<Record>, k: int): real
    requires 0 <= k <= |t|
  {
    if k == 0 then x0 else t[k - 1].x
  }

  // ---------------------------------------------------------------------
  // The two loops

  /** Standard steps `i`, `i + 1`, ... up to `p.maxIter`, from `x`. Every
      step visits exactly one new point, the one it records. */
  function StandardRun(p: Params, x: real, i: int): (o: Outcome)
    ensures |o.trace| <= StepsLeft(p.maxIter, i)
    ensures |o.points| == |o.trace|
    decreases StepsLeft(p.maxIter, i)
  {
    if i > p.maxIter then Outcome([], [])
    else
      var next := p.g(x);
      var r := Record(i, next, Abs(next - x));
      if r.error < p.tol then Outcome([r], [next])
      else
        var rest := StandardRun(p, next, i + 1);
        Outcome([r] + rest.trace, [next] + rest.points)
  }

  /** Aitken steps `i`, `i + 1`, ... up to `p.maxIter`, from `x`. Every
      step visits two new points, recorded or not. */
  function AitkenRun(p: Params, x: real, i: int): (o: Outcome)
    ensures |o.trace| <= StepsLeft(p.maxIter, i)
    ensures |o.points| == 2 * |o.trace| || |o.points| == 2 * |o.trace| + 2
    decreases StepsLeft(p.maxIter, i)
  {
    if i > p.maxIter then Outcome([], [])
    else
      var x1 := p.g(x);
      var x2 := p.g(x1);
      if AitkenDegenerate(x, x1, x2) then Outcome([], [x1, x2])
      else
        var xa := AitkenPoint(x, x1, x2);
        var r := Record(i, xa, Abs(xa - x));
        if r.error < p.tol then Outcome([r], [x1, x2])
        else
          var rest := AitkenRun(p, xa, i + 1);
          Outcome([r] + rest.trace, [x1, x2] + rest.points)
  }

  /** The whole iterator: the seed opens the list of visited points and
      steps are numbered from 1. */
  function FixedPointIteration(g: real -> real, x0: real, tol: real, maxIter: int, useAitken: bool): (o: Outcome)
    ensures |o.points| > 0 && o.points[0] == x0
  {
    var p := Params(g, tol, maxIter);
    var run := if useAitken then AitkenRun(p, x0, 1) else StandardRun(p, x0, 1);
    Outcome(run.trace, [x0] + run.points)
  }

  // ---------------------------------------------------------------------
  // Standard mode

  /** `n` applications of `g` to `x`. */
  function NthIterate(g: real -> real, x: real, n: nat): real
    decreases n
  {
    if n == 0 then x else NthIterate(g, g(x), n - 1)
  }

  /** Applying `g` `n + 1` times is applying it `n` times from `g(x)`. */
  lemma IterateShift(g: real -> real, x: real, n: nat)
    ensures NthIterate(g, x, n + 1) == NthIterate(g, g(x), n)
  {
  }

  /** Prepending a record shifts the starting points by one. */
  lemma StartOfCons(x: real, r: Record, rest: seq<Record>, k: int)
    requires 1 <= k <= |rest| + 1
    ensures StartOf(x, [r] + rest, k) == StartOf(r.x, rest, k - 1)
  {
  }

  /** Each standard record applies `g` to the point its step starts from,
      and its error is the distance between the two. */
  lemma {:induction false} StandardRecords(p: Params, x: real, i: int, t: seq<Record>)
    requires t == StandardRun(p, x, i).trace
    ensures forall k :: 0 <= k < |t| ==>
      t[k] == Record(i + k, p.g(StartOf(x, t, k)), Abs(p.g(StartOf(x, t, k)) - StartOf(x, t, k)))
    decreases StepsLeft(p.maxIter, i)
  {
    if i <= p.maxIter {
      var next := p.g(x);
      var r := Record(i, next, Abs(next - x));
      if r.error >= p.tol {
        var rest := StandardRun(p, next, i + 1).trace;
        StandardRecords(p, next, i + 1, rest);
        assert t == [r] + rest;
        forall k | 1 <= k < |t|
          ensures t[k] == Record(i + k, p.g(StartOf(x, t, k)), Abs(p.g(StartOf(x, t, k)) - StartOf(x, t, k)))
        {
          StartOfCons(x, r, rest, k);
          assert t[k] == rest[k - 1];
        }
      }
    }
  }

  /** The points a standard run visits are the points it records. */
  lemma {:induction false} StandardPoints(p: Params, x: real, i: int, o: Outcome)
    requires o == StandardRun(p, x, i)
    ensures forall k :: 0 <= k < |o.points| ==> o.points[k] == o.trace[k].x
    decreases StepsLeft(p.maxIter, i)
  {
    if i <= p.maxIter {
      var next := p.g(x);
      var r := Record(i, next, Abs(next - x));
      if r.error >= p.tol {
        var rest := StandardRun(p, next, i + 1);
        StandardPoints(p, next, i + 1, rest);
        assert o.trace == [r] + rest.trace;
        assert o.points == [next] + rest.points;
        forall k | 1 <= k < |o.points|
          ensures o.points[k] == o.trace[k].x
        {
          assert o.points[k] == rest.points[k - 1];
          assert o.trace[k] == rest.trace[k - 1];
        }
      }
    }
  }

  /** No standard record but the last is within tolerance, and a run cut
      short of its budget ends within it. */
  lemma {:induction false} StandardStops(p: Params, x: real, i: int, t: seq<Record>)
    requires t == StandardRun(p, x, i).trace
    ensures forall k :: 0 <= k < |t| - 1 ==> t[k].error >= p.tol
    ensures |t| < StepsLeft(p.maxIter, i) ==> |t| > 0 && t[|t| - 1].error < p.tol
    decreases StepsLeft(p.maxIter, i)
  {
    if i <= p.maxIter {
      var next := p.g(x);
      var r := Record(i, next, Abs(next - x));
      if r.error >= p.tol {
        var rest := StandardRun(p, next, i + 1).trace;
        StandardStops(p, next, i + 1, rest);
        assert t == [r] + rest;
        assert forall k :: 1 <= k < |t| ==> t[k] == rest[k - 1];
      }
    }
  }

  /** Standard records are the repetitions of `g` on the starting point:
      record `k` holds the `k + 1`-th iterate and its distance from the
      `k`-th. */
  lemma {:induction false} StandardIterates(p: Params, x: real, i: int, t: seq<Record>)
    requires t == StandardRun(p, x, i).trace
    ensures forall k :: 0 <= k < |t| ==>
      t[k].x == NthIterate(p.g, x, k + 1) && t[k].error == Abs(NthIterate(p.g, x, k + 1) - NthIterate(p.g, x, k))
    decreases StepsLeft(p.maxIter, i)
  {
    if i <= p.maxIter {
      var next := p.g(x);
      var r := Record(i, next, Abs(next - x));
      if r.error >= p.tol {
        var rest := StandardRun(p, next, i + 1).trace;
        StandardIterates(p, next, i + 1, rest);
        assert t == [r] + rest;
        forall k | 1 <= k < |t|
          ensures t[k].x == NthIterate(p.g, x, k + 1) && t[k].error == Abs(NthIterate(p.g, x, k + 1) - NthIterate(p.g, x, k))
        {
          assert t[k] == rest[k - 1];
          IterateShift(p.g, x, k);
          IterateShift(p.g, x, k - 1);
        }
      }
    }
  }

  /** Standard mode: at most `maxIter` records numbered 1, 2, ...; record
      `k` holds `x_k = g(x_(k-1))` (with `x_0` the seed) and
      `|x_k - x_(k-1)|`. */
  lemma StandardTrace(g: real -> real, x0: real, tol: real, maxIter: int, t: seq<Record>)
    requires t == FixedPointIteration(g, x0, tol, maxIter, false).trace
    ensures |t| <= StepsLeft(maxIter, 1)
    ensures forall k :: 0 <= k < |t| ==>
      && t[k].index == k + 1
      && t[k].x == g(StartOf(x0, t, k))
      && t[k].error == Abs(t[k].x - StartOf(x0, t, k))
  {
    StandardRecords(Params(g, tol, maxIter), x0, 1, t);
  }

  /** Standard mode: the visited points are the seed followed by every
      recorded point. */
  lemma StandardVisits(g: real -> real, x0: real, tol: real, maxIter: int, o: Outcome)
    requires o == FixedPointIteration(g, x0, tol, maxIter, false)
    ensures |o.points| == 1 + |o.trace|
    ensures forall k :: 0 <= k <= |o.trace| ==> o.points[k] == StartOf(x0, o.trace, k)
  {
    var p := Params(g, tol, maxIter);
    var run := StandardRun(p, x0, 1);
    assert o.trace == run.trace;
    assert o.points == [x0] + run.points;
    StandardPoints(p, x0, 1, run);
    forall k | 1 <= k <= |o.trace|
      ensures o.points[k] == StartOf(x0, o.trace, k)
    {
      assert o.points[k] == run.points[k - 1];
    }
  }

  /** Standard mode agrees with plain repetition of `g`: record `k` holds
      the `k`-th iterate of the seed and its distance from the one before. */
  lemma StandardIsIterate(g: real -> real, x0: real, tol: real, maxIter: int, t: seq<Record>)
    requires t == FixedPointIteration(g, x0, tol, maxIter, false).trace
    ensures forall k :: 0 <= k < |t| ==>
      t[k].x == NthIterate(g, x0, k + 1) && t[k].error == Abs(NthIterate(g, x0, k + 1) - NthIterate(g, x0, k))
  {
    StandardIterates(Params(g, tol, maxIter), x0, 1, t);
  }

  // ---------------------------------------------------------------------
  // Aitken mode

  /** The whole Aitken run, seeded at `x0`, ended on its denominator. */
  predicate DenominatorStop(p: Params, x0: real, t: seq<Record>)
  {
    StoppedOnDenominator(p, x0, 1, t)
  }

  /** An Aitken run of steps `i`, `i + 1`, ... from `x` ended because the
      denominator of the step after its last record (or of its first step)
      was too close to zero, and not on the tolerance or the budget. */
  predicate StoppedOnDenominator(p: Params, x: real, i: int, t: seq<Record>)
  {
    var s := StartOf(x, t, |t|);
    && |t| < StepsLeft(p.maxIter, i)
    && !(|t| > 0 && t[|t| - 1].error < p.tol)
    && AitkenDegenerate(s, p.g(s), p.g(p.g(s)))
  }

  /** Record `k` of `t` is the Aitken step from the point it starts from. */
  predicate AitkenFits(p: Params, x: real, i: int, t: seq<Record>, k: int)
    requires 0 <= k < |t|
  {
    var s := StartOf(x, t, k);
    && !AitkenDegenerate(s, p.g(s), p.g(p.g(s)))
    && t[k] == Record(i + k, AitkenPoint(s, p.g(s), p.g(p.g(s))), Abs(AitkenPoint(s, p.g(s), p.g(p.g(s))) - s))
  }

  /** Each Aitken record extrapolates the two applications of `g` to the
      point its step starts from, over a denominator that is not
      degenerate, and its error is the distance the extrapolation moved. */
  lemma {:induction false} AitkenRecords(p: Params, x: real, i: int, t: seq<Record>)
    requires t == AitkenRun(p, x, i).trace
    ensures forall k :: 0 <= k < |t| ==> AitkenFits(p, x, i, t, k)
    decreases StepsLeft(p.maxIter, i)
  {
    if i <= p.maxIter {
      var x1 := p.g(x);
      var x2 := p.g(x1);
      if !AitkenDegenerate(x, x1, x2) {
        var xa := AitkenPoint(x, x1, x2);
        var r := Record(i, xa, Abs(xa - x));
        if r.error >= p.tol {
          var rest := AitkenRun(p, xa, i + 1).trace;
          AitkenRecords(p, xa, i + 1, rest);
          assert t == [r] + rest;
          assert AitkenFits(p, x, i, t, 0);
          forall k | 1 <= k < |t|
            ensures AitkenFits(p, x, i, t, k)
          {
            StartOfCons(x, r, rest, k);
            assert t[k] == rest[k - 1];
            assert AitkenFits(p, xa, i + 1, rest, k - 1);
          }
        } else {
          assert AitkenFits(p, x, i, t, 0);
        }
      }
    }
  }

  /** Prepending one step's record and its two points shifts the pair of
      points each later step visits by one step. */
  lemma PointsCons(x: real, r: Record, rest: Outcome, o: Outcome, x1: real, x2: real, k: int)
    requires o == Outcome([r] + rest.trace, [x1, x2] + rest.points)
    requires 1 <= k <= |rest.trace| + 1 && 2 * k + 1 < |o.points|
    ensures o.points[2 * k] == rest.points[2 * (k - 1)]
    ensures o.points[2 * k + 1] == rest.points[2 * (k - 1) + 1]
    ensures StartOf(x, o.trace, k) == StartOf(r.x, rest.trace, k - 1)
  {
    StartOfCons(x, r, rest.trace, k);
  }

  /** Every Aitken step, recorded or not, visits `g(s)` and then `g(g(s))`
      for the point `s` it starts from. */
  lemma {:induction false} AitkenPoints(p: Params, x: real, i: int, o: Outcome)
    requires o == AitkenRun(p, x, i)
    ensures forall k :: 0 <= k < |o.points| / 2 ==>
      && k <= |o.trace|
      && o.points[2 * k] == p.g(StartOf(x, o.trace, k))
      && o.points[2 * k + 1] == p.g(p.g(StartOf(x, o.trace, k)))
    decreases StepsLeft(p.maxIter, i)
  {
    if i <= p.maxIter {
      var x1 := p.g(x);
      var x2 := p.g(x1);
      if !AitkenDegenerate(x, x1, x2) {
        var xa := AitkenPoint(x, x1, x2);
        var r := Record(i, xa, Abs(xa - x));
        if r.error >= p.tol {
          var rest := AitkenRun(p, xa, i + 1);
          AitkenPoints(p, xa, i + 1, rest);
          assert o.trace == [r] + rest.trace;
          assert o.points == [x1, x2] + rest.points;
          forall k | 1 <= k < |o.points| / 2
            ensures && k <= |o.trace|
                    && o.points[2 * k] == p.g(StartOf(x, o.trace, k))
                    && o.points[2 * k + 1] == p.g(p.g(StartOf(x, o.trace, k)))
          {
            PointsCons(x, r, rest, o, x1, x2, k);
          }
        }
      }
    }
  }

  /** No Aitken record but the last is within tolerance; a run cut short of
      its budget ends within tolerance or in front of a degenerate
      denominator; and the run visits two points per record, plus two for
      the step that found the denominator degenerate. */
  lemma {:induction false} AitkenStops(p: Params, x: real, i: int, o: Outcome)
    requires o == AitkenRun(p, x, i)
    ensures forall k :: 0 <= k < |o.trace| - 1 ==> o.trace[k].error >= p.tol
    ensures |o.trace| < StepsLeft(p.maxIter, i) ==>
      (|o.trace| > 0 && o.trace[|o.trace| - 1].error < p.tol) || StoppedOnDenominator(p, x, i, o.trace)
    ensures |o.points| == 2 * |o.trace| + (if StoppedOnDenominator(p, x, i, o.trace) then 2 else 0)
    decreases StepsLeft(p.maxIter, i)
  {
    if i <= p.maxIter {
      var x1 := p.g(x);
      var x2 := p.g(x1);
      if !AitkenDegenerate(x, x1, x2) {
        var xa := AitkenPoint(x, x1, x2);
        var r := Record(i, xa, Abs(xa - x));
        if r.error >= p.tol {
          var rest := AitkenRun(p, xa, i + 1);
          AitkenStops(p, xa, i + 1, rest);
          assert o.trace == [r] + rest.trace;
          assert forall k :: 1 <= k < |o.trace| ==> o.trace[k] == rest.trace[k - 1];
          StartOfCons(x, r, rest.trace, |o.trace|);
          assert StoppedOnDenominator(p, x, i, o.trace) == StoppedOnDenominator(p, xa, i + 1, rest.trace);
        }
      }
    }
  }

  /** Aitken mode: at most `maxIter` records numbered 1, 2, ...; record `k`
      holds the extrapolation from the point its step starts from (the seed,
      then the previous extrapolation), over a denominator that is not
      degenerate, and its distance from that point. */
  lemma AitkenTrace(g: real -> real, x0: real, tol: real, maxIter: int, o: Outcome)
    requires o == FixedPointIteration(g, x0, tol, maxIter, true)
    ensures |o.trace| <= StepsLeft(maxIter, 1)
    ensures forall k :: 0 <= k < |o.trace| ==> AitkenFits(Params(g, tol, maxIter), x0, 1, o.trace, k)
  {
    var p := Params(g, tol, maxIter);
    var run := AitkenRun(p, x0, 1);
    assert o.trace == run.trace;
    AitkenRecords(p, x0, 1, run.trace);
  }

  /** Aitken mode: every step appends `g(s)` and `g(g(s))` to the visited
      points for the point `s` it starts from, so there are
      `1 + 2 * len(trace)` of them, or two more when the run ended on a
      degenerate denominator. */
  lemma AitkenVisits(g: real -> real, x0: real, tol: real, maxIter: int, o: Outcome)
    requires o == FixedPointIteration(g, x0, tol, maxIter, true)
    ensures |o.points| == (if DenominatorStop(Params(g, tol, maxIter), x0, o.trace) then 3 else 1) + 2 * |o.trace|
    ensures forall k :: 0 <= k < (|o.points| - 1) / 2 ==>
      && o.points[2 * k + 1] == g(StartOf(x0, o.trace, k))
      && o.points[2 * k + 2] == g(g(StartOf(x0, o.trace, k)))
  {
    var p := Params(g, tol, maxIter);
    var run := AitkenRun(p, x0, 1);
    assert o == Outcome(run.trace, [x0] + run.points);
    AitkenPoints(p, x0, 1, run);
    AitkenStops(p, x0, 1, run);
    forall k | 0 <= k < (|o.points| - 1) / 2
      ensures && o.points[2 * k + 1] == g(StartOf(x0, o.trace, k))
              && o.points[2 * k + 2] == g(g(StartOf(x0, o.trace, k)))
    {
      assert o.points[2 * k + 1] == run.points[2 * k];
      assert o.points[2 * k + 2] == run.points[2 * k + 1];
    }
  }

  /** Either mode: every record before the last has an error of at least
      `tol`; a trace shorter than `maxIter` ends on an error below `tol`,
      except that Aitken mode may instead have stopped on its denominator. */
  lemma TraceStops(g: real -> real, x0: real, tol: real, maxIter: int, useAitken: bool, t: seq<Record>)
    requires t == FixedPointIteration(g, x0, tol, maxIter, useAitken).trace
    ensures forall k :: 0 <= k < |t| - 1 ==> t[k].error >= tol
    ensures |t| < maxIter ==>
      (|t| > 0 && t[|t| - 1].error < tol) || (useAitken && DenominatorStop(Params(g, tol, maxIter), x0, t))
  {
    var p := Params(g, tol, maxIter);
    if useAitken {
      AitkenStops(p, x0, 1, AitkenRun(p, x0, 1));
    } else {
      StandardStops(p, x0, 1, t);
    }
  }

  /** Either mode: no recorded error is negative. */
  lemma ErrorsNonNegative(g: real -> real, x0: real, tol: real, maxIter: int, useAitken: bool, t: seq<Record>)
    requires t == FixedPointIteration(g, x0, tol, maxIter, useAitken).trace
    ensures forall k :: 0 <= k < |t| ==> t[k].error >= 0.0
  {
    var o := FixedPointIteration(g, x0, tol, maxIter, useAitken);
    if useAitken {
      AitkenTrace(g, x0, tol, maxIter, o);
      forall k | 0 <= k < |t|
        ensures t[k].error >= 0.0
      {
        assert AitkenFits(Params(g, tol, maxIter), x0, 1, t, k);
      }
    } else {
      StandardTrace(g, x0, tol, maxIter, t);
    }
  }

  /** Aitken mode seeded with an exact fixed point of `g`: all three
      iterates coincide, the denominator is zero, and the run stops at once
      with an empty trace after visiting the seed twice more. */
  lemma AitkenAtFixedPoint(g: real -> real, x0: real, tol: real, maxIter: int)
    requires g(x0) == x0
    ensures FixedPointIteration(g, x0, tol, maxIter, true).trace == []
    ensures maxIter >= 1 ==> FixedPointIteration(g, x0, tol, maxIter, true).points == [x0, x0, x0]
  {
  }

  // ---------------------------------------------------------------------
  // The loops as written

  /** A loop that has collected `trace` and `visited` and has `rest` of
      the run still ahead of it produces the run `whole`. */
  predicate Glued(trace: seq<Record>, visited: seq<real>, rest: Outcome, whole: Outcome)
  {
    trace + rest.trace == whole.trace && visited + rest.points == whole.points
  }

  /** One pass of the standard loop: what was collected, glued to what is
      left of the run, stays the whole run, and a pass within tolerance
      leaves nothing behind. */
  lemma StandardPass(p: Params, x0: real, x: real, i: int, trace: seq<Record>, visited: seq<real>,
                     next: real, error: real)
    requires i <= p.maxIter
    requires next == p.g(x) && error == Abs(next - x)
    requires Glued(trace, visited, StandardRun(p, x, i), StandardRun(p, x0, 1))
    ensures error < p.tol ==>
      Outcome(trace + [Record(i, next, error)], visited + [next]) == StandardRun(p, x0, 1)
    ensures error >= p.tol ==>
      Glued(trace + [Record(i, next, error)], visited + [next], StandardRun(p, next, i + 1), StandardRun(p, x0, 1))
  {
    var here := StandardRun(p, x, i);
    if error >= p.tol {
      var rest := StandardRun(p, next, i + 1);
      assert here == Outcome([Record(i, next, error)] + rest.trace, [next] + rest.points);
      assert trace + here.trace == (trace + [Record(i, next, error)]) + rest.trace;
      assert visited + here.points == (visited + [next]) + rest.points;
    } else {
      assert here == Outcome([Record(i, next, error)], [next]);
    }
  }

  /** The loop of standard mode; `visited` leaves out the seed. */
  method StandardLoop(p: Params, x0: real) returns (trace: seq<Record>, visited: seq<real>)
    ensures Outcome(trace, visited) == StandardRun(p, x0, 1)
  {
    trace, visited := [], [];
    var x := x0;
    var i := 1;
    while i <= p.maxIter
      invariant 1 <= i
      invariant Glued(trace, visited, StandardRun(p, x, i), StandardRun(p, x0, 1))
    {
      var next := p.g(x);
      var error := Abs(next - x);
      StandardPass(p, x0, x, i, trace, visited, next, error);
      trace := trace + [Record(i, next, error)];
      visited := visited + [next];
      if error < p.tol {
        break;
      }
      x := next;
      i := i + 1;
    }
  }

  /** One accelerated pass of the Aitken loop: what was collected, glued to
      what is left of the run, stays the whole run, and a pass within
      tolerance leaves nothing behind. */
  lemma AitkenPass(p: Params, x0: real, x: real, i: int, trace: seq<Record>, visited: seq<real>,
                   x1: real, x2: real, xa: real, error: real)
    requires i <= p.maxIter
    requires x1 == p.g(x) && x2 == p.g(x1) && !AitkenDegenerate(x, x1, x2)
    requires xa == AitkenPoint(x, x1, x2) && error == Abs(xa - x)
    requires Glued(trace, visited, AitkenRun(p, x, i), AitkenRun(p, x0, 1))
    ensures error < p.tol ==>
      Outcome(trace + [Record(i, xa, error)], visited + [x1, x2]) == AitkenRun(p, x0, 1)
    ensures error >= p.tol ==>
      Glued(trace + [Record(i, xa, error)], visited + [x1, x2], AitkenRun(p, xa, i + 1), AitkenRun(p, x0, 1))
  {
    var here := AitkenRun(p, x, i);
    if error >= p.tol {
      var rest := AitkenRun(p, xa, i + 1);
      assert here == Outcome([Record(i, xa, error)] + rest.trace, [x1, x2] + rest.points);
      assert trace + here.trace == (trace + [Record(i, xa, error)]) + rest.trace;
      assert visited + here.points == (visited + [x1, x2]) + rest.points;
    } else {
      assert here == Outcome([Record(i, xa, error)], [x1, x2]);
    }
  }

  /** The degenerate denominator ends the Aitken loop after visiting the
      two points it was computed from. */
  lemma AitkenHalt(p: Params, x0: real, x: real, i: int, trace: seq<Record>, visited: seq<real>,
                   x1: real, x2: real)
    requires i <= p.maxIter
    requires x1 == p.g(x) && x2 == p.g(x1) && AitkenDegenerate(x, x1, x2)
    requires Glued(trace, visited, AitkenRun(p, x, i), AitkenRun(p, x0, 1))
    ensures Outcome(trace, visited + [x1, x2]) == AitkenRun(p, x0, 1)
  {
    assert AitkenRun(p, x, i) == Outcome([], [x1, x2]);
  }

  /** The loop of Aitken mode; `visited` leaves out the seed. */
  method AitkenLoop(p: Params, x0: real) returns (trace: seq<Record>, visited: seq<real>)
    ensures Outcome(trace, visited) == AitkenRun(p, x0, 1)
  {
    trace, visited := [], [];
    var x := x0;
    var i := 1;
    while i <= p.maxIter
      invariant 1 <= i
      invariant Glued(trace, visited, AitkenRun(p, x, i), AitkenRun(p, x0, 1))
    {
      var x1 := p.g(x);
      var x2 := p.g(x1);
      if AitkenDegenerate(x, x1, x2) {
        AitkenHalt(p, x0, x, i, trace, visited, x1, x2);
        visited := visited + [x1, x2];
        break;
      }
      var xa := AitkenPoint(x, x1, x2);
      var error := Abs(xa - x);
      AitkenPass(p, x0, x, i, trace, visited, x1, x2, xa, error);
      trace := trace + [Record(i, xa, error)];
      visited := visited + [x1, x2];
      if error < p.tol {
        break;
      }
      x := xa;
      i := i + 1;
    }
  }

  /** The iterator as the source runs it: the seed first, then the loop of
      the chosen mode. */
  method FixedPointLoop(g: real -> real, x0: real, tol: real, maxIter: int, useAitken: bool)
    returns (trace: seq<Record>, points: seq<real>)
    ensures Outcome(trace, points) == FixedPointIteration(g, x0, tol, maxIter, useAitken)
  {
    var p := Params(g, tol, maxIter);
    var visited;
    if useAitken {
      trace, visited := AitkenLoop(p, x0);
    } else {
      trace, visited := StandardLoop(p, x0);
    }
    points := [x0] + visited;
  }
}
