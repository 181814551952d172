/** The bracket search of `Aproximation/validador_intervalos.py`.

    The search samples `[a, b]` on a grid of step `delta` (as
    `numpy.arange(a, b + delta / 2, delta)` does, with the last point pulled
    back onto `b` when it overshoots), evaluates the function at the two
    ends of every pair of neighbouring grid points, and reports each pair
    whose values have a product `<= 0`: a sign change, or an exact zero at
    one end. A pair where either evaluation raises `ValueError`,
    `TypeError` or `ZeroDivisionError` is skipped and the scan goes on. A
    non-positive step is rejected before anything is evaluated.

    When the last grid point falls short of `b`, the piece between it and
    `b` is never scanned. `CoveringGrid` and `CoveringSearch` give the
    search with `b` always on the grid, and `CoveringSearchFindsSignChange`
    proves that it then reports a sign change between the two ends.

    Evaluation is modelled as `real -> Option<real>`, `None` standing for an
    evaluation that raised one of those three exceptions. */
module BracketSearch {
  import opened Numeric

  /** A reported sub-interval `(x0, x1)` of the grid. */
  datatype Interval = Interval(lo: real, hi: real)

  /** Why a search was rejected. */
  datatype SearchError = NonPositiveDelta

  /** The least integer not below `t`. */
  function Ceil(t: real): (c: int)
    ensures c as real - 1.0 < t <= c as real
  {
    -((-t).Floor)
  }

  /** Multiplying by a positive step keeps a strict or non-strict order. */
  lemma ScaleByStep(x: real, y: real, step: real)
    requires step > 0.0
    ensures x < y ==> x * step < y * step
    ensures x <= y ==> x * step <= y * step
  {
  }

  /** A multiple of the step short of `(stop - start) / step` stays below
      `stop`; one at or beyond it reaches `stop`. */
  lemma MultipleVersusStop(start: real, stop: real, step: real, m: real)
    requires step > 0.0
    ensures m < (stop - start) / step ==> start + m * step < stop
    ensures m >= (stop - start) / step ==> start + m * step >= stop
  {
    var t := (stop - start) / step;
    assert t * step == stop - start;
    ScaleByStep(m, t, step);
    ScaleByStep(t, m, step);
  }

  /** `numpy.arange(start, stop, step)` for a positive step, over exact
      reals: the points `start + k * step`, `k = 0, 1, ...`, that lie below
      `stop`, and no more. */
  function Arange(start: real, stop: real, step: real): (s: seq<real>)
    requires step > 0.0
    ensures forall k :: 0 <= k < |s| ==> s[k] == start + k as real * step && s[k] < stop
    ensures start + |s| as real * step >= stop
  {
    var n := Ceil((stop - start) / step);
    var s := seq(if n < 0 then 0 else n, k => start + k as real * step);
    assert forall k :: 0 <= k < |s| ==> s[k] < stop by {
      forall k | 0 <= k < |s|
        ensures s[k] < stop
      {
        MultipleVersusStop(start, stop, step, k as real);
      }
    }
    assert start + |s| as real * step >= stop by {
      MultipleVersusStop(start, stop, step, |s| as real);
    }
    s
  }

  /** The sample grid over `[lo, hi]`: the arange up to `hi + delta / 2`,
      with its last point replaced by `hi` when it lies beyond `hi`. */
  function Grid(lo: real, hi: real, delta: real): (g: seq<real>)
    requires lo <= hi && delta > 0.0
    ensures |g| >= 1 && g[0] == lo
  {
    var pts := Arange(lo, hi + delta / 2.0, delta);
    assert |pts| > 0;
    if pts[|pts| - 1] > hi then pts[|pts| - 1 := hi] else pts
  }

  /** Both evaluations of a pair succeed and their product is `<= 0`. */
  predicate Qualifies(f: real -> Option<real>, x0: real, x1: real)
  {
    f(x0).Some? && f(x1).Some? && f(x0).value * f(x1).value <= 0.0
  }

  /** Pair `k` of the grid exists and qualifies. */
  predicate QualifiesAt(f: real -> Option<real>, pts: seq<real>, k: int)
  {
    0 <= k < |pts| - 1 && Qualifies(f, pts[k], pts[k + 1])
  }

  /** The pair of grid points `k` and `k + 1`, as an interval. */
  function PairAt(pts: seq<real>, k: int): Interval
    requires 0 <= k < |pts| - 1
  {
    Interval(pts[k], pts[k + 1])
  }

  /** The qualifying pairs among pairs `k`, `k + 1`, ... of the grid, left
      to right. */
  function ScanFrom(f: real -> Option<real>, pts: seq<real>, k: nat): (r: seq<Interval>)
    ensures |r| <= if k + 1 < |pts| then |pts| - 1 - k else 0
    decreases |pts| - k
  {
    if k + 1 >= |pts| then []
    else (if Qualifies(f, pts[k], pts[k + 1]) then [PairAt(pts, k)] else []) + ScanFrom(f, pts, k + 1)
  }

  /** The whole search. */
  function Search(f: real -> Option<real>, a: real, b: real, delta: real): (r: Result<seq<Interval>, SearchError>)
    ensures r.Err? <==> delta <= 0.0
    ensures r.Err? ==> r.error == NonPositiveDelta
  {
    if delta <= 0.0 then Err(NonPositiveDelta)
    else Ok(ScanFrom(f, Grid(Min(a, b), Max(a, b), delta), 0))
  }

  // ---------------------------------------------------------------------
  // The grid

  /** A sequence that rises from each element to the next rises
      throughout. */
  lemma {:induction false} ChainIncreasing(s: seq<real>)
    requires forall k :: 0 <= k < |s| - 1 ==> s[k] < s[k + 1]
    ensures forall j, k :: 0 <= j < k < |s| ==> s[j] < s[k]
    decreases |s|
  {
    if |s| > 1 {
      var init := s[..|s| - 1];
      assert forall k :: 0 <= k < |init| - 1 ==> init[k] < init[k + 1] by {
        forall k | 0 <= k < |init| - 1
          ensures init[k] < init[k + 1]
        {
          assert init[k] == s[k] && init[k + 1] == s[k + 1];
        }
      }
      ChainIncreasing(init);
      forall j, k | 0 <= j < k < |s|
        ensures s[j] < s[k]
      {
        if k < |s| - 1 {
          assert s[j] == init[j] && s[k] == init[k];
        } else if j < k - 1 {
          assert s[j] == init[j] && s[k - 1] == init[k - 1];
        }
      }
    }
  }

  /** One more step. */
  lemma NextMultiple(k: int, step: real)
    ensures (k + 1) as real * step == k as real * step + step
  {
    assert (k + 1) as real == k as real + 1.0;
  }

  /** Arange points `k` and `k + 1` are one step apart. */
  lemma ArangeNext(start: real, stop: real, step: real, pts: seq<real>, k: int)
    requires step > 0.0 && pts == Arange(start, stop, step)
    requires 0 <= k < |pts| - 1
    ensures pts[k + 1] == pts[k] + step
  {
    var j := k + 1;
    assert pts[k] == start + k as real * step;
    assert pts[j] == start + j as real * step;
    NextMultiple(k, step);
  }

  /** Neighbouring arange points are one step apart, and the last one is
      less than one step below the stop. */
  lemma ArangeShape(start: real, stop: real, step: real, pts: seq<real>)
    requires step > 0.0 && pts == Arange(start, stop, step)
    ensures forall k :: 0 <= k < |pts| ==> pts[k] < stop
    ensures forall k :: 0 <= k < |pts| - 1 ==> pts[k + 1] == pts[k] + step
    ensures |pts| > 0 ==> pts[|pts| - 1] >= stop - step
  {
    forall k | 0 <= k < |pts| - 1
      ensures pts[k + 1] == pts[k] + step
    {
      ArangeNext(start, stop, step, pts, k);
    }
    if |pts| > 0 {
      var n := |pts| - 1;
      assert pts[n] == start + n as real * step;
      NextMultiple(n, step);
    }
  }

  /** The grid starts at `lo` and climbs by `delta`; only its last point can
      differ from `lo + k * delta`, and then it is `hi`. */
  lemma GridSteps(lo: real, hi: real, delta: real, g: seq<real>)
    requires lo <= hi && delta > 0.0
    requires g == Grid(lo, hi, delta)
    ensures forall k :: 0 <= k < |g| - 1 ==> g[k] == lo + k as real * delta
    ensures g[|g| - 1] == lo + (|g| - 1) as real * delta || g[|g| - 1] == hi
  {
  }

  /** Neighbouring grid points rise by more than zero and at most `delta`,
      and the last point lies in `[hi - delta / 2, hi]`. */
  lemma GridNeighbours(lo: real, hi: real, delta: real, g: seq<real>)
    requires lo <= hi && delta > 0.0
    requires g == Grid(lo, hi, delta)
    ensures forall k :: 0 <= k < |g| - 1 ==> g[k] < g[k + 1] <= g[k] + delta
    ensures hi - delta / 2.0 <= g[|g| - 1] <= hi
  {
    var pts := Arange(lo, hi + delta / 2.0, delta);
    ArangeShape(lo, hi + delta / 2.0, delta, pts);
    ClampedShape(hi, delta, pts, g);
  }

  /** The neighbour and end facts of the grid, from those of the arange it
      is cut from. */
  lemma ClampedShape(hi: real, delta: real, pts: seq<real>, g: seq<real>)
    requires delta > 0.0 && |pts| > 0
    requires forall j :: 0 <= j < |pts| ==> pts[j] < hi + delta / 2.0
    requires forall j :: 0 <= j < |pts| - 1 ==> pts[j + 1] == pts[j] + delta
    requires pts[|pts| - 1] >= hi + delta / 2.0 - delta
    requires g == if pts[|pts| - 1] > hi then pts[|pts| - 1 := hi] else pts
    ensures forall k :: 0 <= k < |g| - 1 ==> g[k] < g[k + 1] <= g[k] + delta
    ensures hi - delta / 2.0 <= g[|g| - 1] <= hi
  {
    var n := |pts|;
    if pts[n - 1] > hi {
      forall k | 0 <= k < |g| - 1
        ensures g[k] < g[k + 1] <= g[k] + delta
      {
        ClampedNeighbours(hi, delta, pts, g, k);
      }
    }
  }

  /** After the overshooting last point is pulled back onto `hi`, the
      neighbours of the grid still rise by more than zero and at most
      `delta`. */
  lemma ClampedNeighbours(hi: real, delta: real, pts: seq<real>, g: seq<real>, k: int)
    requires delta > 0.0 && |pts| > 0 && pts[|pts| - 1] > hi
    requires forall j :: 0 <= j < |pts| ==> pts[j] < hi + delta / 2.0
    requires forall j :: 0 <= j < |pts| - 1 ==> pts[j + 1] == pts[j] + delta
    requires g == pts[|pts| - 1 := hi]
    requires 0 <= k < |g| - 1
    ensures g[k] < g[k + 1] <= g[k] + delta
  {
    var n := |pts|;
    assert g[k] == pts[k];
    if k + 1 < n - 1 {
      assert g[k + 1] == pts[k + 1];
    } else {
      assert pts[k + 1] == pts[k] + delta;
      assert pts[k] <= hi - delta / 2.0;
    }
  }

  /** Every grid point lies in `[lo, hi]`, the points strictly increase,
      neighbours are at most `delta` apart, and the last point is within
      `delta / 2` of `hi`. */
  lemma GridShape(lo: real, hi: real, delta: real, g: seq<real>)
    requires lo <= hi && delta > 0.0
    requires g == Grid(lo, hi, delta)
    ensures forall k :: 0 <= k < |g| ==> lo <= g[k] <= hi
    ensures forall j, k :: 0 <= j < k < |g| ==> g[j] < g[k]
    ensures forall k :: 0 <= k < |g| - 1 ==> g[k + 1] - g[k] <= delta
    ensures hi - delta / 2.0 <= g[|g| - 1]
  {
    GridNeighbours(lo, hi, delta, g);
    ChainIncreasing(g);
    forall k | 0 <= k < |g|
      ensures lo <= g[k] <= hi
    {
      if 0 < k {
        assert g[0] < g[k];
      }
      if k < |g| - 1 {
        assert g[k] < g[|g| - 1];
      }
    }
  }

  /** `hi` itself need not be a grid point: over `[0, 1.4]` with step 1 the
      grid is `0, 1`, since the arange stops below `1.9` and does not
      overshoot `1.4`. */
  lemma EndNotAlwaysOnGrid()
    ensures Grid(0.0, 1.4, 1.0) == [0.0, 1.0]
  {
    var pts := Arange(0.0, 1.9, 1.0);
    assert Ceil(1.9) == 2;
    assert pts == [0.0, 1.0];
  }

  // ---------------------------------------------------------------------
  // The scan

  /** Every reported interval is a neighbouring pair of points, from pair
      `k` on, where both evaluations succeed and the product is `<= 0`. */
  lemma {:induction false} ScanSound(f: real -> Option<real>, pts: seq<real>, k: nat, r: seq<Interval>)
    requires r == ScanFrom(f, pts, k)
    ensures forall iv :: iv in r ==>
      exists j :: k <= j && QualifiesAt(f, pts, j) && iv == PairAt(pts, j)
    decreases |pts| - k
  {
    if k + 1 < |pts| {
      var rest := ScanFrom(f, pts, k + 1);
      ScanSound(f, pts, k + 1, rest);
      var head := if Qualifies(f, pts[k], pts[k + 1]) then [PairAt(pts, k)] else [];
      assert r == head + rest;
      forall iv | iv in r
        ensures exists j :: k <= j && QualifiesAt(f, pts, j) && iv == PairAt(pts, j)
      {
        if iv in rest {
          var j :| k + 1 <= j && QualifiesAt(f, pts, j) && iv == PairAt(pts, j);
        } else {
          assert iv in head;
        }
      }
    }
  }

  /** Every neighbouring pair, from pair `k` on, where both evaluations
      succeed and the product is `<= 0` is reported. */
  lemma {:induction false} ScanComplete(f: real -> Option<real>, pts: seq<real>, k: nat, r: seq<Interval>)
    requires r == ScanFrom(f, pts, k)
    ensures forall j :: k <= j && QualifiesAt(f, pts, j) ==> PairAt(pts, j) in r
    decreases |pts| - k
  {
    if k + 1 < |pts| {
      var rest := ScanFrom(f, pts, k + 1);
      ScanComplete(f, pts, k + 1, rest);
      var head := if Qualifies(f, pts[k], pts[k + 1]) then [PairAt(pts, k)] else [];
      assert r == head + rest;
    }
  }

  /** Soundness and completeness of the scan from pair `k` on. */
  lemma ScanExact(f: real -> Option<real>, pts: seq<real>, k: nat, r: seq<Interval>)
    requires r == ScanFrom(f, pts, k)
    ensures forall iv :: iv in r <==>
      exists j :: k <= j && QualifiesAt(f, pts, j) && iv == PairAt(pts, j)
  {
    ScanSound(f, pts, k, r);
    ScanComplete(f, pts, k, r);
  }

  /** Over strictly increasing points, reported intervals keep the order of
      the grid: each lies to the left of the next and they overlap at most
      in a shared grid point. */
  lemma {:induction false} ScanOrdered(f: real -> Option<real>, pts: seq<real>, k: nat, r: seq<Interval>)
    requires forall i, j :: 0 <= i < j < |pts| ==> pts[i] < pts[j]
    requires r == ScanFrom(f, pts, k)
    ensures forall i :: 0 <= i < |r| ==> r[i].lo < r[i].hi
    ensures forall i, j :: 0 <= i < j < |r| ==> r[i].hi <= r[j].lo
    decreases |pts| - k
  {
    if k + 1 < |pts| {
      var rest := ScanFrom(f, pts, k + 1);
      ScanOrdered(f, pts, k + 1, rest);
      ScanExact(f, pts, k + 1, rest);
      forall i | 0 <= i < |rest|
        ensures pts[k + 1] <= rest[i].lo
      {
        assert rest[i] in rest;
      }
    }
  }

  // ---------------------------------------------------------------------
  // The search

  /** The order of the two ends does not matter. */
  lemma SearchSymmetric(f: real -> Option<real>, a: real, b: real, delta: real)
    ensures Search(f, a, b, delta) == Search(f, b, a, delta)
  {
    assert Min(a, b) == Min(b, a) && Max(a, b) == Max(b, a);
  }

  /** Soundness and completeness: with a positive step, an interval is
      reported exactly when it is a pair of neighbouring grid points over
      `[min(a, b), max(a, b)]` whose evaluations both succeed with a product
      `<= 0`. A failed evaluation drops only the pairs it belongs to. */
  lemma SearchExact(f: real -> Option<real>, a: real, b: real, delta: real, r: seq<Interval>)
    requires delta > 0.0 && Search(f, a, b, delta) == Ok(r)
    ensures var g := Grid(Min(a, b), Max(a, b), delta);
      forall iv :: iv in r <==>
        exists k :: QualifiesAt(f, g, k) && iv == PairAt(g, k)
  {
    ScanExact(f, Grid(Min(a, b), Max(a, b), delta), 0, r);
  }

  /** Every reported interval lies within `[min(a, b), max(a, b)]`, is at
      most one step wide, and the intervals come left to right. */
  lemma SearchOrdered(f: real -> Option<real>, a: real, b: real, delta: real, r: seq<Interval>)
    requires delta > 0.0 && Search(f, a, b, delta) == Ok(r)
    ensures forall k :: 0 <= k < |r| ==>
      Min(a, b) <= r[k].lo < r[k].hi <= Max(a, b) && r[k].hi - r[k].lo <= delta
    ensures forall j, k :: 0 <= j < k < |r| ==> r[j].hi <= r[k].lo
  {
    var lo, hi := Min(a, b), Max(a, b);
    var g := Grid(lo, hi, delta);
    assert r == ScanFrom(f, g, 0);
    GridShape(lo, hi, delta, g);
    ScanOrdered(f, g, 0, r);
    ScanExact(f, g, 0, r);
    forall k | 0 <= k < |r|
      ensures lo <= r[k].lo < r[k].hi <= hi && r[k].hi - r[k].lo <= delta
    {
      assert r[k] in r;
      var j :| QualifiesAt(f, g, j) && r[k] == PairAt(g, j);
    }
  }

  /** A point where evaluation fails is the end of no reported interval. */
  lemma SkipsFailedPoints(f: real -> Option<real>, a: real, b: real, delta: real, r: seq<Interval>, x: real)
    requires delta > 0.0 && Search(f, a, b, delta) == Ok(r)
    requires f(x).None?
    ensures forall iv :: iv in r ==> iv.lo != x && iv.hi != x
    ensures var g := Grid(Min(a, b), Max(a, b), delta);
      forall k :: QualifiesAt(f, g, k) ==> PairAt(g, k) in r
  {
    SearchExact(f, a, b, delta, r);
  }

  /** An exact root at an interior grid point, with both neighbours
      evaluable, makes both pairs around it qualify: both are reported,
      without deduplication. */
  lemma RootAtGridPoint(f: real -> Option<real>, a: real, b: real, delta: real, r: seq<Interval>, k: int)
    requires delta > 0.0 && Search(f, a, b, delta) == Ok(r)
    requires var g := Grid(Min(a, b), Max(a, b), delta);
      && 0 < k < |g| - 1
      && f(g[k]) == Some(0.0) && f(g[k - 1]).Some? && f(g[k + 1]).Some?
    ensures var g := Grid(Min(a, b), Max(a, b), delta);
      Interval(g[k - 1], g[k]) in r && Interval(g[k], g[k + 1]) in r
  {
    var g := Grid(Min(a, b), Max(a, b), delta);
    SearchExact(f, a, b, delta, r);
    assert QualifiesAt(f, g, k - 1) && PairAt(g, k - 1) == Interval(g[k - 1], g[k]);
    assert QualifiesAt(f, g, k) && PairAt(g, k) == Interval(g[k], g[k + 1]);
  }

  /** A root exactly on an interior grid point is reported twice: `f(x) = x`
      over `[-1, 1]` with step 1 samples `-1, 0, 1`, and both pairs touch the
      root at 0. */
  lemma RootReportedTwice()
    ensures Search(x => Some(x), -1.0, 1.0, 1.0) == Ok([Interval(-1.0, 0.0), Interval(0.0, 1.0)])
  {
    var f: real -> Option<real> := x => Some(x);
    assert Ceil(2.5) == 3;
    var g := Grid(-1.0, 1.0, 1.0);
    assert g == [-1.0, 0.0, 1.0];
    assert Search(f, -1.0, 1.0, 1.0) == Ok(ScanFrom(f, g, 0));
    assert Qualifies(f, g[0], g[1]) && Qualifies(f, g[1], g[2]);
    assert ScanFrom(f, g, 2) == [];
    assert ScanFrom(f, g, 1) == [Interval(0.0, 1.0)];
    assert ScanFrom(f, g, 0) == [Interval(-1.0, 0.0), Interval(0.0, 1.0)];
  }

  // ---------------------------------------------------------------------
  // The loop as written

  /** One pass of the loop: the pair at `k` moves from the rest of the scan
      to the intervals found so far. */
  lemma ScanPass(f: real -> Option<real>, pts: seq<real>, k: nat, found: seq<Interval>, head: seq<Interval>)
    requires k + 1 < |pts|
    requires head == if Qualifies(f, pts[k], pts[k + 1]) then [PairAt(pts, k)] else []
    ensures found + ScanFrom(f, pts, k) == (found + head) + ScanFrom(f, pts, k + 1)
  {
    assert ScanFrom(f, pts, k) == head + ScanFrom(f, pts, k + 1);
  }

  /** The source's loop over neighbouring pairs, collecting the pairs that
      qualify. */
  method ScanLoop(f: real -> Option<real>, pts: seq<real>) returns (found: seq<Interval>)
    ensures found == ScanFrom(f, pts, 0)
  {
    found := [];
    var k: nat := 0;
    while k + 1 < |pts|
      invariant found + ScanFrom(f, pts, k) == ScanFrom(f, pts, 0)
    {
      var head := if Qualifies(f, pts[k], pts[k + 1]) then [PairAt(pts, k)] else [];
      ScanPass(f, pts, k, found, head);
      found := found + head;
      k := k + 1;
    }
  }

  /** The search as the source runs it: reject the step, order the ends,
      build the grid, scan it. */
  method FindBrackets(f: real -> Option<real>, a: real, b: real, delta: real)
    returns (r: Result<seq<Interval>, SearchError>)
    ensures r == Search(f, a, b, delta)
  {
    if delta <= 0.0 {
      return Err(NonPositiveDelta);
    }
    var lo, hi := a, b;
    if lo > hi {
      lo, hi := hi, lo;
    }
    assert lo == Min(a, b) && hi == Max(a, b);
    var pts := Grid(lo, hi, delta);
    var found := ScanLoop(f, pts);
    return Ok(found);
  }
  // ---------------------------------------------------------------------
  // The end of the interval

  /** The grid stops short of `hi` and a root there is missed: over
      `[0, 1]` with step `0.3` the grid is `0, 0.3, 0.6, 0.9`, so
      `f(x) = x - 0.95`, which changes sign between the two ends, gives no
      interval at all. */
  lemma MissesRootNearEnd()
    ensures var f: real -> Option<real> := x => Some(x - 0.95);
      && f(0.0).value * f(1.0).value < 0.0
      && Search(f, 0.0, 1.0, 0.3) == Ok([])
  {
    var f: real -> Option<real> := x => Some(x - 0.95);
    assert Ceil(1.15 / 0.3) == 4;
    var g := Grid(0.0, 1.0, 0.3);
    assert g == [0.0, 0.3, 0.6, 0.9];
    assert ScanFrom(f, g, 3) == [];
    assert !Qualifies(f, g[2], g[3]) && ScanFrom(f, g, 2) == [];
    assert !Qualifies(f, g[1], g[2]) && ScanFrom(f, g, 1) == [];
    assert !Qualifies(f, g[0], g[1]) && ScanFrom(f, g, 0) == [];
  }

  /** The grid with `hi` always on it: the source's grid, with `hi`
      appended when its last point falls short of `hi`. */
  function CoveringGrid(lo: real, hi: real, delta: real): (g: seq<real>)
    requires lo <= hi && delta > 0.0
    ensures |g| >= 1 && g[0] == lo && g[|g| - 1] == hi
  {
    var pts := Grid(lo, hi, delta);
    GridNeighbours(lo, hi, delta, pts);
    if pts[|pts| - 1] < hi then pts + [hi] else pts
  }

  /** The covering grid keeps the shape of the source's grid: its points
      lie in `[lo, hi]`, strictly increase and are at most `delta` apart. */
  lemma CoveringGridShape(lo: real, hi: real, delta: real, g: seq<real>)
    requires lo <= hi && delta > 0.0
    requires g == CoveringGrid(lo, hi, delta)
    ensures forall k :: 0 <= k < |g| ==> lo <= g[k] <= hi
    ensures forall k :: 0 <= k < |g| - 1 ==> g[k] < g[k + 1] <= g[k] + delta
  {
    var pts := Grid(lo, hi, delta);
    GridShape(lo, hi, delta, pts);
    GridNeighbours(lo, hi, delta, pts);
    if pts[|pts| - 1] < hi {
      assert g == pts + [hi];
      forall k | 0 <= k < |g| - 1
        ensures g[k] < g[k + 1] <= g[k] + delta
      {
        if k < |pts| - 1 {
          assert g[k] == pts[k] && g[k + 1] == pts[k + 1];
        }
      }
    }
  }

  /** The search over the covering grid. */
  function CoveringSearch(f: real -> Option<real>, a: real, b: real, delta: real): (r: Result<seq<Interval>, SearchError>)
    ensures r.Err? <==> delta <= 0.0
    ensures r.Err? ==> r.error == NonPositiveDelta
  {
    if delta <= 0.0 then Err(NonPositiveDelta)
    else Ok(ScanFrom(f, CoveringGrid(Min(a, b), Max(a, b), delta), 0))
  }

  /** A product `<= 0` carries over a neighbour of the same strict sign. */
  lemma SignCarry(x: real, y: real, z: real)
    requires x * y > 0.0 && x * z <= 0.0
    ensures y * z <= 0.0
  {
    if x > 0.0 {
      assert y > 0.0;
      assert z <= 0.0;
    } else {
      assert y < 0.0;
      assert z >= 0.0;
    }
  }

  /** A sign change between point `k` and the last point, over points that
      all evaluate, shows up in some neighbouring pair from `k` on. */
  lemma {:induction false} SignChangeQualifies(f: real -> Option<real>, pts: seq<real>, k: nat)
    requires k < |pts| - 1
    requires forall j :: 0 <= j < |pts| ==> f(pts[j]).Some?
    requires f(pts[k]).value * f(pts[|pts| - 1]).value <= 0.0
    ensures exists j :: k <= j && QualifiesAt(f, pts, j)
    decreases |pts| - k
  {
    if !QualifiesAt(f, pts, k) {
      SignCarry(f(pts[k]).value, f(pts[k + 1]).value, f(pts[|pts| - 1]).value);
      SignChangeQualifies(f, pts, k + 1);
    }
  }

  /** Over the covering grid, a function defined on all of `[a, b]` whose
      values at the two ends have a product `<= 0` yields at least one
      interval. */
  lemma CoveringSearchFindsSignChange(f: real -> Option<real>, a: real, b: real, delta: real)
    requires delta > 0.0 && a != b
    requires forall x :: Min(a, b) <= x <= Max(a, b) ==> f(x).Some?
    requires f(a).Some? && f(b).Some? && f(a).value * f(b).value <= 0.0
    ensures CoveringSearch(f, a, b, delta).Ok? && |CoveringSearch(f, a, b, delta).value| > 0
  {
    var lo, hi := Min(a, b), Max(a, b);
    var g := CoveringGrid(lo, hi, delta);
    var r := ScanFrom(f, g, 0);
    CoveringGridShape(lo, hi, delta, g);
    assert |g| >= 2;
    assert f(g[0]).value * f(g[|g| - 1]).value <= 0.0;
    SignChangeQualifies(f, g, 0);
    var j :| 0 <= j && QualifiesAt(f, g, j);
    ScanComplete(f, g, 0, r);
    assert PairAt(g, j) in r;
  }

  /** The example the source's grid misses is found over the covering
      grid. */
  lemma CoveringFindsRootNearEnd()
    ensures CoveringSearch(x => Some(x - 0.95), 0.0, 1.0, 0.3) == Ok([Interval(0.9, 1.0)])
  {
    var f: real -> Option<real> := x => Some(x - 0.95);
    assert Ceil(1.15 / 0.3) == 4;
    assert Grid(0.0, 1.0, 0.3) == [0.0, 0.3, 0.6, 0.9];
    var g := CoveringGrid(0.0, 1.0, 0.3);
    assert g == [0.0, 0.3, 0.6, 0.9, 1.0];
    assert Qualifies(f, g[3], g[4]);
    assert ScanFrom(f, g, 4) == [];
    assert ScanFrom(f, g, 3) == [Interval(0.9, 1.0)];
    assert !Qualifies(f, g[2], g[3]) && ScanFrom(f, g, 2) == [Interval(0.9, 1.0)];
    assert !Qualifies(f, g[1], g[2]) && ScanFrom(f, g, 1) == [Interval(0.9, 1.0)];
    assert !Qualifies(f, g[0], g[1]) && ScanFrom(f, g, 0) == [Interval(0.9, 1.0)];
  }
}
