/**
  Line simplification of the world outlines (scripts/gen_world_geojson.go).

  Coordinates are reals and distances are kept squared, so that `math.Hypot` needs no square root:
  every distance and the tolerance are non-negative, and comparing their squares is the same test.
 */
module DouglasPeucker {

  datatype Point = Point(x: real, y: real)

  function Times(x: real, y: real): real {
    x * y
  }

  function Sq(t: real): real {
    Times(t, t)
  }

  function DistSq(p: Point, q: Point): real {
    Sq(p.x - q.x) + Sq(p.y - q.y)
  }

  /** The point at fraction `t` of the way from `a` to `b`. */
  function Along(a: Point, b: Point, t: real): Point {
    Point(a.x + t * (b.x - a.x), a.y + t * (b.y - a.y))
  }

  function Clamp(t: real): real {
    if t < 0.0 then 0.0 else if t > 1.0 then 1.0 else t
  }

  /** `dx*dx + dy*dy`. */
  function NormSq(dx: real, dy: real): (n: real)
    ensures dx != 0.0 || dy != 0.0 ==> n > 0.0
  {
    hide Sq;
    SquareSign(dx);
    SquareSign(dy);
    Sq(dx) + Sq(dy)
  }

  function Dot(ux: real, uy: real, vx: real, vy: real): real {
    ux * vx + uy * vy
  }

  lemma SquareSign(x: real)
    ensures Sq(x) >= 0.0
    ensures x != 0.0 ==> Sq(x) > 0.0
  {
    hide Times;
    if x != 0.0 {
      SameSignProduct(x, x);
    } else {
      ZeroProduct(x, x);
    }
  }

  lemma SameSignProduct(x: real, y: real)
    requires (x > 0.0 && y > 0.0) || (x < 0.0 && y < 0.0)
    ensures Times(x, y) > 0.0
  {
  }

  lemma ZeroProduct(x: real, y: real)
    requires x == 0.0
    ensures Times(x, y) == 0.0
  {
  }

  /** What is measured: the squared length of the difference to the point a fraction `t` along the segment. */
  lemma DistanceMeans(x: real, y: real, ax: real, ay: real, cx: real, cy: real, t: real)
    ensures DistSq(Point(x, y), Along(Point(ax, ay), Point(cx, cy), t)) ==
            (x - (ax + t * (cx - ax))) * (x - (ax + t * (cx - ax))) + (y - (ay + t * (cy - ay))) * (y - (ay + t * (cy - ay)))
    ensures Sq(t) == t * t
  {
  }

  /** The fraction of the segment at which `perpDist` measures. */
  function Foot(p: Point, a: Point, b: Point): real {
    hide Dot, NormSq;
    var dx, dy := b.x - a.x, b.y - a.y;
    if dx == 0.0 && dy == 0.0 then 0.0
    else Clamp(Dot(p.x - a.x, p.y - a.y, dx, dy) / NormSq(dx, dy))
  }

  /** `perpDist`, squared. */
  function PerpDistSq(p: Point, a: Point, b: Point): real {
    DistSq(p, Along(a, b, Foot(p, a, b)))
  }

  // ----- what perpDist means: the distance to the nearest point of the segment

  /** The part of the squared distance that varies along the segment. */
  function Quad(t: real, n: real, n2: real): real {
    Sq(t) * n2 - 2.0 * (t * n)
  }

  lemma DistAlongExpand(p: Point, a: Point, b: Point, t: real)
    ensures var dx, dy := b.x - a.x, b.y - a.y;
            DistSq(p, Along(a, b, t)) ==
            DistSq(p, a) + Quad(t, Dot(p.x - a.x, p.y - a.y, dx, dy), NormSq(dx, dy))
  {
    hide Sq;
    var dx, dy := b.x - a.x, b.y - a.y;
    var u, v := p.x - a.x, p.y - a.y;
    AxisExpand(u, dx, t);
    AxisExpand(v, dy, t);
    var q := Along(a, b, t);
    assert p.x - q.x == u - t * dx;
    assert p.y - q.y == v - t * dy;
    Distribute(Sq(t), Sq(dx), Sq(dy));
    Distribute(t, u * dx, v * dy);
    assert DistSq(p, q) == Sq(u - t * dx) + Sq(v - t * dy);
  }

  lemma Distribute(k: real, x: real, y: real)
    ensures k * (x + y) == k * x + k * y
  {
  }

  lemma AxisExpand(u: real, d: real, t: real)
    ensures Sq(u - t * d) == Sq(u) - 2.0 * (t * (u * d)) + Sq(t) * Sq(d)
  {
    SquareOfDifference(u, t * d);
    assert u * (t * d) == t * (u * d);
    assert (t * d) * (t * d) == (t * t) * (d * d);
  }

  lemma SquareOfDifference(u: real, w: real)
    ensures (u - w) * (u - w) == u * u - 2.0 * (u * w) + w * w
  {
  }

  lemma ProductSign(x: real, y: real)
    requires x >= 0.0 && y >= 0.0
    ensures x * y >= 0.0
  {
  }

  /** (t - m) * (t + m - 2q) */
  function Gap(t: real, m: real, q: real): real {
    (t - m) * (t + m - 2.0 * q)
  }

  lemma GapSign(t: real, q: real)
    requires 0.0 <= t <= 1.0
    ensures Gap(t, Clamp(q), q) >= 0.0
  {
    var m := Clamp(q);
    if q < 0.0 {
      ProductSign(t - m, t + m - 2.0 * q);
    } else if q > 1.0 {
      ProductSign(m - t, 2.0 * q - (t + m));
      assert Gap(t, m, q) == (m - t) * (2.0 * q - (t + m));
    } else {
      SquareSign(t - q);
      assert Gap(t, m, q) == Sq(t - q);
    }
  }

  lemma GapTimesNorm(n2: real, q: real, t: real, m: real)
    ensures Gap(t, m, q) * n2 == Quad(t, q * n2, n2) - Quad(m, q * n2, n2)
  {
    var d := Gap(t, m, q);
    assert d == t * t - m * m - 2.0 * (t * q) + 2.0 * (m * q);
    assert d * n2 == (t * t) * n2 - (m * m) * n2 - 2.0 * ((t * q) * n2) + 2.0 * ((m * q) * n2);
    assert (t * q) * n2 == t * (q * n2);
    assert (m * q) * n2 == m * (q * n2);
  }

  /** The quadratic is least, on [0,1], at its clamped vertex. */
  lemma ClampedVertexIsLeast(n: real, n2: real, t: real)
    requires n2 > 0.0 && 0.0 <= t <= 1.0
    ensures Quad(Clamp(n / n2), n, n2) <= Quad(t, n, n2)
  {
    hide Quad, Gap, Clamp;
    var q := n / n2;
    assert q * n2 == n;
    GapSign(t, q);
    GapTimesNorm(n2, q, t, Clamp(q));
    ProductSign(Gap(t, Clamp(q), q), n2);
  }

  /** `perpDist` is attained on the segment and no point of the segment is nearer. */
  lemma PerpDistIsSegmentDistance(p: Point, a: Point, b: Point, t: real)
    requires 0.0 <= t <= 1.0
    ensures 0.0 <= Foot(p, a, b) <= 1.0
    ensures PerpDistSq(p, a, b) == DistSq(p, Along(a, b, Foot(p, a, b)))
    ensures PerpDistSq(p, a, b) <= DistSq(p, Along(a, b, t))
  {
    hide DistSq, NormSq, Dot, Quad;
    var dx, dy := b.x - a.x, b.y - a.y;
    if dx == 0.0 && dy == 0.0 {
      assert Along(a, b, t) == a == Along(a, b, 0.0);
    } else {
      var n, n2 := Dot(p.x - a.x, p.y - a.y, dx, dy), NormSq(dx, dy);
      hide Along;
      ClampedVertexIsLeast(n, n2, t);
      DistAlongExpand(p, a, b, t);
      DistAlongExpand(p, a, b, Foot(p, a, b));
    }
  }

  // ----- the recursion, on values

  /** Squared distance of point `i` to the chord joining the ends. */
  function Dev(pts: seq<Point>, i: nat): real
    requires i < |pts|
  {
    PerpDistSq(pts[i], pts[0], pts[|pts| - 1])
  }

  /** `idx` is the first interior point farthest from the chord (0 when no interior point leaves it). */
  ghost predicate IsFarthest(pts: seq<Point>, idx: nat)
    requires |pts| >= 3
  {
    && idx < |pts| - 1
    && (idx == 0 ==> forall i :: 0 < i < |pts| - 1 ==> Dev(pts, i) <= 0.0)
    && (idx > 0 ==>
          && Dev(pts, idx) > 0.0
          && (forall i :: 0 < i < idx ==> Dev(pts, i) < Dev(pts, idx))
          && (forall i :: idx < i < |pts| - 1 ==> Dev(pts, i) <= Dev(pts, idx)))
  }

  /** First index of the farthest interior point among 1..n, 0 if none is off the chord. */
  function FarthestUpTo(pts: seq<Point>, n: nat): (idx: nat)
    requires |pts| >= 3 && 1 <= n <= |pts| - 1
    ensures idx < n
  {
    if n == 1 then 0
    else
      var k := FarthestUpTo(pts, n - 1);
      if Dev(pts, n - 1) > (if k == 0 then 0.0 else Dev(pts, k)) then n - 1 else k
  }

  function Farthest(pts: seq<Point>): (idx: nat)
    requires |pts| >= 3
    ensures idx < |pts| - 1
  {
    FarthestUpTo(pts, |pts| - 1)
  }

  lemma {:induction false} FarthestUpToFacts(pts: seq<Point>, n: nat)
    requires |pts| >= 3 && 1 <= n <= |pts| - 1
    ensures var idx := FarthestUpTo(pts, n);
            && (idx == 0 ==> forall i :: 0 < i < n ==> Dev(pts, i) <= 0.0)
            && (idx > 0 ==>
                  && Dev(pts, idx) > 0.0
                  && (forall i :: 0 < i < idx ==> Dev(pts, i) < Dev(pts, idx))
                  && (forall i :: idx < i < n ==> Dev(pts, i) <= Dev(pts, idx)))
  {
    hide PerpDistSq, Sq;
    if n > 1 {
      FarthestUpToFacts(pts, n - 1);
    }
  }

  lemma FarthestIsFarthest(pts: seq<Point>)
    requires |pts| >= 3
    ensures IsFarthest(pts, Farthest(pts))
  {
    hide PerpDistSq, Sq;
    FarthestUpToFacts(pts, |pts| - 1);
  }

  lemma FarthestUnique(pts: seq<Point>, i: nat, j: nat)
    requires |pts| >= 3 && IsFarthest(pts, i) && IsFarthest(pts, j)
    ensures i == j
  {
    hide PerpDistSq, Sq;
  }

  /** The largest squared deviation, 0 when every interior point is on the chord. */
  function MaxDev(pts: seq<Point>): real
    requires |pts| >= 3
  {
    var idx := Farthest(pts);
    if idx == 0 then 0.0 else Dev(pts, idx)
  }

  /** The simplification as a recursion on values, never sharing storage. */
  function Simplify(pts: seq<Point>, tol: real): (out: seq<Point>)
    requires tol >= 0.0
    ensures |out| <= |pts|
    ensures |pts| >= 2 ==> |out| >= 2
    ensures |pts| >= 1 ==> |out| >= 1 && out[0] == pts[0] && out[|out| - 1] == pts[|pts| - 1]
    decreases |pts|
  {
    hide PerpDistSq, Sq;
    if |pts| < 3 then pts
    else if MaxDev(pts) <= Sq(tol) then [pts[0], pts[|pts| - 1]]
    else
      SquareSign(tol);
      var idx := Farthest(pts);
      var l := Simplify(pts[..idx + 1], tol);
      var r := Simplify(pts[idx..], tol);
      l[..|l| - 1] + r
  }

  /** One step of the recursion. */
  lemma SplitEquation(pts: seq<Point>, tol: real)
    requires tol >= 0.0 && |pts| >= 3 && MaxDev(pts) > Sq(tol)
    ensures var idx := Farthest(pts);
            && 0 < idx
            && (var l := Simplify(pts[..idx + 1], tol);
                Simplify(pts, tol) == l[..|l| - 1] + Simplify(pts[idx..], tol))
  {
    hide PerpDistSq, Sq, FarthestUpTo;
    SquareSign(tol);
  }

  // ----- which points are kept, and the error bound

  /** Indices into `pts` of the points that simplifying the window `lo..hi` keeps. */
  ghost function Kept(pts: seq<Point>, lo: nat, hi: nat, tol: real): (ks: seq<nat>)
    requires tol >= 0.0 && lo < hi <= |pts|
    ensures |ks| >= 1
    decreases hi - lo
  {
    hide PerpDistSq, Sq;
    var w := pts[lo..hi];
    if |w| < 3 then seq(|w|, i => lo + i)
    else if MaxDev(w) <= Sq(tol) then [lo, hi - 1]
    else
      SquareSign(tol);
      var idx := lo + Farthest(w);
      var l := Kept(pts, lo, idx + 1, tol);
      l[..|l| - 1] + Kept(pts, idx, hi, tol)
  }

  /** `ks` is strictly increasing from `lo` to `hi - 1`. */
  ghost predicate PicksEnds(ks: seq<nat>, lo: nat, hi: nat) {
    && |ks| >= 1
    && ks[0] == lo && ks[|ks| - 1] == hi - 1
    && (forall m, n :: 0 <= m < n < |ks| ==> ks[m] < ks[n])
  }

  lemma PicksInRange(ks: seq<nat>, lo: nat, hi: nat, m: nat)
    requires PicksEnds(ks, lo, hi) && m < |ks|
    ensures lo <= ks[m] < hi
  {
  }

  /** `out` lists the points of `pts` at the indices `ks`. */
  ghost predicate Selects(out: seq<Point>, ks: seq<nat>, pts: seq<Point>) {
    |out| == |ks| && forall m :: 0 <= m < |ks| ==> ks[m] < |pts| && out[m] == pts[ks[m]]
  }

  /** The points strictly between two kept ones are within the tolerance of the chord joining these. */
  ghost predicate GapBounded(pts: seq<Point>, from: nat, to: nat, tol: real) {
    forall i :: from < i < to < |pts| ==> PerpDistSq(pts[i], pts[from], pts[to]) <= Sq(tol)
  }

  ghost predicate ErrorBounded(ks: seq<nat>, pts: seq<Point>, tol: real) {
    forall m :: 0 <= m < |ks| - 1 ==> GapBounded(pts, ks[m], ks[m + 1], tol)
  }

  lemma JoinPicks(kl: seq<nat>, kr: seq<nat>, lo: nat, idx: nat, hi: nat)
    requires PicksEnds(kl, lo, idx + 1) && PicksEnds(kr, idx, hi) && lo < idx
    ensures PicksEnds(kl[..|kl| - 1] + kr, lo, hi)
  {
    var c := |kl| - 1;
    var ks := kl[..c] + kr;
    forall m, n | 0 <= m < n < |ks| ensures ks[m] < ks[n] {
      if m < c <= n {
        assert kl[m] < kl[c] == idx;
        PicksInRange(kr, idx, hi, n - c);
      }
    }
  }

  lemma JoinSelects(l: seq<Point>, kl: seq<nat>, r: seq<Point>, kr: seq<nat>, pts: seq<Point>)
    requires Selects(l, kl, pts) && Selects(r, kr, pts) && |l| >= 1
    ensures Selects(l[..|l| - 1] + r, kl[..|l| - 1] + kr, pts)
  {
  }

  lemma JoinBounded(kl: seq<nat>, kr: seq<nat>, lo: nat, idx: nat, hi: nat, pts: seq<Point>, tol: real)
    requires PicksEnds(kl, lo, idx + 1) && PicksEnds(kr, idx, hi)
    requires ErrorBounded(kl, pts, tol) && ErrorBounded(kr, pts, tol)
    ensures ErrorBounded(kl[..|kl| - 1] + kr, pts, tol)
  {
    hide PerpDistSq, Sq, GapBounded;
    var c := |kl| - 1;
    var ks := kl[..c] + kr;
    forall m | 0 <= m < |ks| - 1 ensures GapBounded(pts, ks[m], ks[m + 1], tol) {
      if m < c {
        assert ks[m + 1] == kl[m + 1];
      } else {
        assert ks[m] == kr[m - c] && ks[m + 1] == kr[m - c + 1];
      }
    }
  }

  lemma ChordBounded(pts: seq<Point>, lo: nat, hi: nat, tol: real)
    requires lo + 3 <= hi <= |pts| && MaxDev(pts[lo..hi]) <= Sq(tol)
    ensures GapBounded(pts, lo, hi - 1, tol)
  {
    hide PerpDistSq, Sq;
    var w := pts[lo..hi];
    FarthestIsFarthest(w);
    SquareSign(tol);
    forall i | lo < i < hi - 1 ensures PerpDistSq(pts[i], pts[lo], pts[hi - 1]) <= Sq(tol) {
      assert Dev(w, i - lo) <= MaxDev(w);
    }
  }

  /**
    The whole promise: the result is a subsequence of the points with both ends, and each dropped point is within the
    tolerance of the segment joining the two consecutive kept points around it.
   */
  lemma {:induction false} SimplifyWithinTolerance(pts: seq<Point>, lo: nat, hi: nat, tol: real)
    requires tol >= 0.0 && lo < hi <= |pts|
    ensures PicksEnds(Kept(pts, lo, hi, tol), lo, hi)
    ensures Selects(Simplify(pts[lo..hi], tol), Kept(pts, lo, hi, tol), pts)
    ensures ErrorBounded(Kept(pts, lo, hi, tol), pts, tol)
    decreases hi - lo
  {
    hide PerpDistSq, Sq, GapBounded, MaxDev;
    var w := pts[lo..hi];
    if |w| < 3 {
      AdjacentBounded(pts, lo, tol);
    } else if MaxDev(w) <= Sq(tol) {
      ChordBounded(pts, lo, hi, tol);
    } else {
      JoinStep(pts, lo, hi, tol);
    }
  }

  lemma AdjacentBounded(pts: seq<Point>, i: nat, tol: real)
    ensures GapBounded(pts, i, i + 1, tol)
  {
  }

  /** One step of the recursion, seen on both the points and their indices. */
  lemma UnfoldSplit(pts: seq<Point>, lo: nat, hi: nat, tol: real) returns (idx: nat)
    requires tol >= 0.0 && lo + 3 <= hi <= |pts| && MaxDev(pts[lo..hi]) > Sq(tol)
    ensures lo < idx < hi - 1 && idx == lo + Farthest(pts[lo..hi])
    ensures var l := Simplify(pts[lo..idx + 1], tol);
            Simplify(pts[lo..hi], tol) == l[..|l| - 1] + Simplify(pts[idx..hi], tol)
    ensures var kl := Kept(pts, lo, idx + 1, tol);
            Kept(pts, lo, hi, tol) == kl[..|kl| - 1] + Kept(pts, idx, hi, tol)
  {
    hide Simplify, Kept, Farthest, MaxDev, Sq;
    var w := pts[lo..hi];
    SplitEquation(w, tol);
    idx := lo + Farthest(w);
    assert w[..idx - lo + 1] == pts[lo..idx + 1];
    assert w[idx - lo..] == pts[idx..hi];
    UnfoldKept(pts, lo, hi, tol);
  }

  lemma UnfoldKept(pts: seq<Point>, lo: nat, hi: nat, tol: real)
    requires tol >= 0.0 && lo + 3 <= hi <= |pts| && MaxDev(pts[lo..hi]) > Sq(tol)
    ensures var idx := lo + Farthest(pts[lo..hi]);
            && lo < idx
            && (var kl := Kept(pts, lo, idx + 1, tol);
                Kept(pts, lo, hi, tol) == kl[..|kl| - 1] + Kept(pts, idx, hi, tol))
  {
    hide PerpDistSq, Sq, FarthestUpTo;
    SquareSign(tol);
  }

  lemma JoinStep(pts: seq<Point>, lo: nat, hi: nat, tol: real)
    requires tol >= 0.0 && lo + 3 <= hi <= |pts| && MaxDev(pts[lo..hi]) > Sq(tol)
    ensures PicksEnds(Kept(pts, lo, hi, tol), lo, hi)
    ensures Selects(Simplify(pts[lo..hi], tol), Kept(pts, lo, hi, tol), pts)
    ensures ErrorBounded(Kept(pts, lo, hi, tol), pts, tol)
    decreases hi - lo, 0
  {
    hide PerpDistSq, Sq, GapBounded;
    hide Simplify, Kept, Farthest, MaxDev;
    var idx := UnfoldSplit(pts, lo, hi, tol);
    SimplifyWithinTolerance(pts, lo, idx + 1, tol);
    SimplifyWithinTolerance(pts, idx, hi, tol);
    var l, r := Simplify(pts[lo..idx + 1], tol), Simplify(pts[idx..hi], tol);
    var kl, kr := Kept(pts, lo, idx + 1, tol), Kept(pts, idx, hi, tol);
    hide PicksEnds, Selects, ErrorBounded;
    assert |l| == |kl| by { SelectsLength(l, kl, pts); }
    JoinPicks(kl, kr, lo, idx, hi);
    JoinSelects(l, kl, r, kr, pts);
    JoinBounded(kl, kr, lo, idx, hi, pts, tol);
  }

  // ----- no point is kept without need

  /** Between points `a` and `b`, point `i` leaves the segment by more than the tolerance, and is the first of the farthest. */
  ghost predicate SticksOut(pts: seq<Point>, a: nat, i: nat, b: nat, tol: real) {
    && a < i < b < |pts|
    && PerpDistSq(pts[i], pts[a], pts[b]) > Sq(tol)
    && (forall j :: a < j < i ==> PerpDistSq(pts[j], pts[a], pts[b]) < PerpDistSq(pts[i], pts[a], pts[b]))
    && (forall j :: i < j < b ==> PerpDistSq(pts[j], pts[a], pts[b]) <= PerpDistSq(pts[i], pts[a], pts[b]))
  }

  /** Two kept points between which this one sticks out. */
  ghost predicate Earned(ks: seq<nat>, pts: seq<Point>, i: nat, tol: real) {
    exists a, b :: a in ks && b in ks && SticksOut(pts, a, i, b, tol)
  }

  ghost predicate AllEarned(ks: seq<nat>, pts: seq<Point>, tol: real) {
    forall m :: 0 < m < |ks| - 1 ==> Earned(ks, pts, ks[m], tol)
  }

  lemma SplitSticksOut(pts: seq<Point>, lo: nat, hi: nat, tol: real)
    requires tol >= 0.0 && lo + 3 <= hi <= |pts| && MaxDev(pts[lo..hi]) > Sq(tol)
    ensures SticksOut(pts, lo, lo + Farthest(pts[lo..hi]), hi - 1, tol)
  {
    hide PerpDistSq, Sq, Farthest;
    var w := pts[lo..hi];
    FarthestIsFarthest(w);
    SquareSign(tol);
    assert forall j :: 0 <= j < |w| ==> Dev(w, j) == PerpDistSq(pts[lo + j], pts[lo], pts[hi - 1]);
    forall j | lo < j < hi - 1 ensures PerpDistSq(pts[j], pts[lo], pts[hi - 1]) == Dev(w, j - lo) {
      assert w[j - lo] == pts[j];
    }
  }

  lemma EarnedGrows(ks: seq<nat>, more: seq<nat>, pts: seq<Point>, i: nat, tol: real)
    requires Earned(ks, pts, i, tol) && forall k :: k in ks ==> k in more
    ensures Earned(more, pts, i, tol)
  {
    hide SticksOut;
  }

  lemma JoinHasBoth(kl: seq<nat>, kr: seq<nat>, k: nat)
    requires |kl| >= 1 && |kr| >= 1 && kl[|kl| - 1] == kr[0] && (k in kl || k in kr)
    ensures k in kl[..|kl| - 1] + kr
  {
    var c := |kl| - 1;
    if k in kr {
      var n :| 0 <= n < |kr| && kr[n] == k;
      assert (kl[..c] + kr)[c + n] == k;
    } else {
      var n :| 0 <= n < |kl| && kl[n] == k;
      assert (kl[..c] + kr)[n] == k;
    }
  }

  lemma EarnedByEnds(ks: seq<nat>, pts: seq<Point>, a: nat, i: nat, b: nat, tol: real)
    requires a in ks && b in ks && SticksOut(pts, a, i, b, tol)
    ensures Earned(ks, pts, i, tol)
  {
    hide SticksOut;
  }

  lemma JoinEarned(kl: seq<nat>, kr: seq<nat>, lo: nat, idx: nat, hi: nat, pts: seq<Point>, tol: real)
    requires PicksEnds(kl, lo, idx + 1) && PicksEnds(kr, idx, hi)
    requires AllEarned(kl, pts, tol) && AllEarned(kr, pts, tol) && SticksOut(pts, lo, idx, hi - 1, tol)
    ensures AllEarned(kl[..|kl| - 1] + kr, pts, tol)
  {
    hide SticksOut, Earned;
    var c := |kl| - 1;
    var ks := kl[..c] + kr;
    forall k: nat | k in kl || k in kr ensures k in ks {
      JoinHasBoth(kl, kr, k);
    }
    assert lo == kl[0] && hi - 1 == kr[|kr| - 1] && lo in kl && hi - 1 in kr;
    EarnedByEnds(ks, pts, lo, idx, hi - 1, tol);
    forall m | 0 < m < |ks| - 1 ensures Earned(ks, pts, ks[m], tol) {
      if m < c {
        EarnedGrows(kl, ks, pts, kl[m], tol);
      } else if m > c {
        EarnedGrows(kr, ks, pts, kr[m - c], tol);
      }
    }
  }

  lemma FewEarned(ks: seq<nat>, pts: seq<Point>, tol: real)
    requires |ks| <= 2
    ensures AllEarned(ks, pts, tol)
  {
  }

  lemma ShortKept(pts: seq<Point>, lo: nat, hi: nat, tol: real)
    requires tol >= 0.0 && lo < hi <= |pts| && (hi - lo < 3 || MaxDev(pts[lo..hi]) <= Sq(tol))
    ensures |Kept(pts, lo, hi, tol)| <= 2
  {
    hide PerpDistSq, Sq, MaxDev, Farthest;
  }

  /**
    Every kept point but the two ends is kept for a reason: between two kept points around it, it leaves the segment joining
    them by more than the tolerance, and no point there leaves it further.
   */
  lemma {:induction false} KeptEarned(pts: seq<Point>, lo: nat, hi: nat, tol: real)
    requires tol >= 0.0 && lo < hi <= |pts|
    ensures AllEarned(Kept(pts, lo, hi, tol), pts, tol)
    decreases hi - lo
  {
    hide PerpDistSq, Sq, MaxDev, Farthest, Kept, Simplify, AllEarned, SticksOut, PicksEnds, Selects, ErrorBounded;
    if hi - lo < 3 || MaxDev(pts[lo..hi]) <= Sq(tol) {
      ShortKept(pts, lo, hi, tol);
      FewEarned(Kept(pts, lo, hi, tol), pts, tol);
    } else {
      var idx := UnfoldSplit(pts, lo, hi, tol);
      KeptEarned(pts, lo, idx + 1, tol);
      KeptEarned(pts, idx, hi, tol);
      SimplifyWithinTolerance(pts, lo, idx + 1, tol);
      SimplifyWithinTolerance(pts, idx, hi, tol);
      SplitSticksOut(pts, lo, hi, tol);
      JoinEarned(Kept(pts, lo, idx + 1, tol), Kept(pts, idx, hi, tol), lo, idx, hi, pts, tol);
    }
  }

  /** A line whose inner points are all within the tolerance of the segment joining its ends becomes its two ends. */
  lemma ChordOnly(pts: seq<Point>, tol: real)
    requires tol >= 0.0 && |pts| >= 2
    requires forall i :: 0 < i < |pts| - 1 ==> PerpDistSq(pts[i], pts[0], pts[|pts| - 1]) <= Sq(tol)
    ensures Simplify(pts, tol) == [pts[0], pts[|pts| - 1]]
  {
    hide PerpDistSq, Sq, Farthest;
    if |pts| >= 3 {
      FarthestIsFarthest(pts);
      SquareSign(tol);
      assert Farthest(pts) > 0 ==> Dev(pts, Farthest(pts)) <= Sq(tol);
    }
  }

  lemma SelectsLength(out: seq<Point>, ks: seq<nat>, pts: seq<Point>)
    requires Selects(out, ks, pts)
    ensures |out| == |ks|
  {
  }

  // ----- simplifying twice changes nothing

  /** A line made of kept points deviates, at each of them, as the original did. */
  lemma DevOfSelection(out: seq<Point>, ks: seq<nat>, pts: seq<Point>, m: nat)
    requires Selects(out, ks, pts) && PicksEnds(ks, 0, |pts|) && m < |ks|
    ensures Dev(out, m) == Dev(pts, ks[m])
  {
    hide PerpDistSq;
  }

  /** If the farthest point is kept, at position `c`, it is the farthest of the kept ones. */
  lemma FarthestOfSelection(out: seq<Point>, ks: seq<nat>, pts: seq<Point>, c: nat)
    requires |pts| >= 3 && |out| >= 3
    requires Selects(out, ks, pts) && PicksEnds(ks, 0, |pts|)
    requires c < |ks| && ks[c] == Farthest(pts) && Farthest(pts) > 0
    ensures Farthest(out) == c && MaxDev(out) == MaxDev(pts)
  {
    hide PerpDistSq, Dev;
    FarthestIsFarthest(pts);
    DevOfSelection(out, ks, pts, c);
    forall i | 0 < i < |out| - 1
      ensures i < c ==> Dev(out, i) < Dev(out, c)
      ensures i > c ==> Dev(out, i) <= Dev(out, c)
    {
      DevOfSelection(out, ks, pts, i);
      assert ks[0] < ks[i] < ks[|ks| - 1];
    }
    assert IsFarthest(out, c);
    FarthestIsFarthest(out);
    FarthestUnique(out, c, Farthest(out));
  }

  /** The split point of a simplified line is the split point of the line. */
  lemma FarthestOfSimplified(pts: seq<Point>, tol: real)
    requires tol >= 0.0 && |pts| >= 3 && MaxDev(pts) > Sq(tol)
    ensures var idx := Farthest(pts);
            && 0 < idx
            && (var l, out := Simplify(pts[..idx + 1], tol), Simplify(pts, tol);
                |out| >= 3 && Farthest(out) == |l| - 1 && MaxDev(out) == MaxDev(pts))
  {
    hide Simplify, Kept, Farthest, MaxDev, Sq;
    assert pts[0..|pts|] == pts;
    var idx := UnfoldSplit(pts, 0, |pts|, tol);
    assert pts[0..idx + 1] == pts[..idx + 1] && pts[idx..|pts|] == pts[idx..];
    var l, out := Simplify(pts[..idx + 1], tol), Simplify(pts, tol);
    var c := |l| - 1;
    var ks, kl, kr := Kept(pts, 0, |pts|, tol), Kept(pts, 0, idx + 1, tol), Kept(pts, idx, |pts|, tol);
    SimplifyWithinTolerance(pts, 0, |pts|, tol);
    SimplifyWithinTolerance(pts, 0, idx + 1, tol);
    SimplifyWithinTolerance(pts, idx, |pts|, tol);
    assert ks[c] == kr[0] == idx;
    FarthestOfSelection(out, ks, pts, c);
  }

  /** A simplified line is already simple: the second pass is the identity. */
  lemma {:induction false} SimplifyIdempotent(pts: seq<Point>, tol: real)
    requires tol >= 0.0
    ensures Simplify(Simplify(pts, tol), tol) == Simplify(pts, tol)
    decreases |pts|
  {
    hide PerpDistSq, Sq, Dev, MaxDev, Farthest;
    if |pts| >= 3 && MaxDev(pts) > Sq(tol) {
      IdempotentStep(pts, tol);
    }
  }

  lemma IdempotentStep(pts: seq<Point>, tol: real)
    requires tol >= 0.0 && |pts| >= 3 && MaxDev(pts) > Sq(tol)
    ensures Simplify(Simplify(pts, tol), tol) == Simplify(pts, tol)
    decreases |pts|, 0
  {
    hide Simplify, Farthest, MaxDev, Sq;
    SplitEquation(pts, tol);
    FarthestOfSimplified(pts, tol);
    var idx := Farthest(pts);
    var l, r, out := Simplify(pts[..idx + 1], tol), Simplify(pts[idx..], tol), Simplify(pts, tol);
    var c := |l| - 1;
    SplitEquation(out, tol);
    assert out[..c + 1] == l;
    assert out[c..] == r;
    SimplifyIdempotent(pts[..idx + 1], tol);
    SimplifyIdempotent(pts[idx..], tol);
  }

  // ----- the Go code: slices that share the input's storage

  /** A Go slice: `len` elements of `arr` from `off`; its capacity reaches the end of `arr`. */
  datatype Slice = Slice(arr: array<Point>, off: nat, len: nat) {
    ghost predicate Valid() {
      off + len <= arr.Length
    }

    ghost function Contents(): seq<Point>
      requires Valid()
      reads arr
    {
      arr[off..off + len]
    }
  }

  /** Go's `copy`: the source is read before the destination is written. */
  method CopyInto(arr: array<Point>, base: nat, copied: seq<Point>)
    requires base + |copied| <= arr.Length
    modifies arr
    ensures forall i :: 0 <= i < arr.Length ==>
                          arr[i] == if base <= i < base + |copied| then copied[i - base] else old(arr[i])
  {
    forall k | 0 <= k < |copied| {
      arr[base + k] := copied[k];
    }
  }

  lemma Spliced(out: Slice, head: seq<Point>, tail: seq<Point>)
    requires out.Valid() && out.len == |head| + |tail|
    requires forall i :: out.off <= i < out.off + |head| ==> out.arr[i] == head[i - out.off]
    requires forall i :: out.off + |head| <= i < out.off + out.len ==> out.arr[i] == tail[i - out.off - |head|]
    ensures out.Contents() == head + tail
  {
  }

  /**
    Go's `append(l[:len(l)-1], r...)`: in place when the capacity of `l` allows it (a copy that tolerates overlap), into a
    new, possibly roomier array otherwise.
   */
  method AppendDroppingLast(l: Slice, r: Slice, ghost left: seq<Point>, ghost right: seq<Point>) returns (out: Slice)
    requires l.Valid() && r.Valid() && l.len >= 1
    requires l.Contents() == left && r.Contents() == right
    modifies l.arr
    ensures out.Valid()
    ensures out.len == |left| - 1 + |right| && out.Contents() == left[..|left| - 1] + right
    ensures l.off + l.len - 1 + r.len <= l.arr.Length ==> out.arr == l.arr && out.off == l.off
    ensures l.off + l.len - 1 + r.len > l.arr.Length ==> fresh(out.arr) && l.arr[..] == old(l.arr[..])
    ensures forall i :: 0 <= i < l.arr.Length && !(l.off + l.len - 1 <= i < l.off + l.len - 1 + r.len) ==>
                          l.arr[i] == old(l.arr[i])
  {
    var base := l.off + l.len - 1;
    assert forall i :: l.off <= i < base ==> l.arr[i] == left[i - l.off];
    if base + r.len <= l.arr.Length {
      CopyInto(l.arr, base, r.arr[r.off..r.off + r.len]);
      out := Slice(l.arr, l.off, l.len - 1 + r.len);
      Spliced(out, left[..l.len - 1], right);
    } else {
      var spare: nat :| true;
      var copied := l.arr[l.off..base] + r.arr[r.off..r.off + r.len];
      var grown := new Point[|copied| + spare](i => if 0 <= i < |copied| then copied[i] else Point(0.0, 0.0));
      out := Slice(grown, 0, |copied|);
      assert out.Contents() == copied;
    }
  }

  /** The scan loop of `dp` on the window `lo..hi` of `a`. */
  method FindFarthest(a: array<Point>, lo: nat, hi: nat) returns (idx: nat, max: real)
    requires lo + 3 <= hi <= a.Length
    ensures idx == Farthest(a[lo..hi]) && max == MaxDev(a[lo..hi])
  {
    hide PerpDistSq, Sq;
    ghost var pts := a[lo..hi];
    idx, max := 0, 0.0;
    for i := 1 to hi - lo - 1
      invariant idx == FarthestUpTo(pts, i)
      invariant max == if idx == 0 then 0.0 else Dev(pts, idx)
    {
      var d := PerpDistSq(a[lo + i], a[lo], a[hi - 1]);
      assert d == Dev(pts, i);
      if d > max {
        idx, max := i, d;
      }
    }
  }

  /**
    `dp` as written: both recursive results may live inside the input, and the final append overwrites it.
    The result is nevertheless the pure simplification of the original points, and the only elements of the input
    that may have changed lie strictly between the two ends of the window.
   */
  method SimplifyInPlace(a: array<Point>, lo: nat, hi: nat, tol: real) returns (out: Slice)
    requires lo <= hi <= a.Length && tol >= 0.0
    modifies a
    ensures out.Valid() && out.Contents() == Simplify(old(a[lo..hi]), tol)
    ensures (out.arr == a && out.off == lo) || fresh(out.arr)
    ensures forall i :: 0 <= i < a.Length && !(lo < i < hi - 1) ==> a[i] == old(a[i])
    decreases hi - lo, 2
  {
    hide PerpDistSq, Sq, Farthest, MaxDev;
    ghost var pts := a[lo..hi];
    if hi - lo < 3 {
      return Slice(a, lo, hi - lo);
    }
    var idx, max := FindFarthest(a, lo, hi);
    if max <= Sq(tol) {
      var ends := new Point[2][a[lo], a[hi - 1]];
      return Slice(ends, 0, 2);
    }
    out := SimplifySplit(a, lo, hi, idx, tol);
  }

  /** The two recursive calls: the second leaves the result of the first alone, even inside the shared storage. */
  method SimplifyHalves(a: array<Point>, lo: nat, hi: nat, idx: nat, tol: real, ghost pts: seq<Point>)
    returns (l: Slice, r: Slice)
    requires lo + 3 <= hi <= a.Length && tol >= 0.0 && 0 < idx < hi - lo - 1
    requires pts == a[lo..hi]
    modifies a
    ensures l.Valid() && l.Contents() == Simplify(pts[..idx + 1], tol)
    ensures r.Valid() && r.Contents() == Simplify(pts[idx..], tol)
    ensures (l.arr == a && l.off == lo) || fresh(l.arr)
    ensures forall i :: 0 <= i < a.Length && !(lo < i < hi - 1) ==> a[i] == old(a[i])
    decreases hi - lo, 0
  {
    hide Simplify;
    assert a[lo..lo + idx + 1] == pts[..idx + 1];
    assert forall i :: lo + idx <= i < hi ==> old(a[i]) == pts[i - lo];
    l := SimplifyFirst(a, lo, lo + idx + 1, tol, pts[..idx + 1]);
    SecondHalf(a, lo, hi, idx, pts);
    r := SimplifyBeside(a, lo + idx, hi, tol, pts[idx..], l);
  }

  lemma SecondHalf(a: array<Point>, lo: nat, hi: nat, idx: nat, pts: seq<Point>)
    requires lo + idx <= hi <= a.Length && |pts| == hi - lo
    requires forall i :: lo + idx <= i < hi ==> a[i] == pts[i - lo]
    ensures a[lo + idx..hi] == pts[idx..]
  {
  }

  /** The first call: its result fits into the half it simplified. */
  method SimplifyFirst(a: array<Point>, lo: nat, hi: nat, tol: real, ghost pts: seq<Point>) returns (out: Slice)
    requires lo + 2 <= hi <= a.Length && tol >= 0.0 && pts == a[lo..hi]
    modifies a
    ensures out.Valid() && out.Contents() == Simplify(pts, tol) && out.len <= hi - lo
    ensures (out.arr == a && out.off == lo) || fresh(out.arr)
    ensures forall i :: 0 <= i < a.Length && !(lo < i < hi - 1) ==> a[i] == old(a[i])
    decreases hi - lo, 3
  {
    hide Simplify;
    out := SimplifyInPlace(a, lo, hi, tol);
    assert out.len == |out.Contents()|;
  }

  /** Simplifying a window changes no slice that ends at or before its first point. */
  method SimplifyBeside(a: array<Point>, lo: nat, hi: nat, tol: real, ghost pts: seq<Point>, ghost beside: Slice)
    returns (out: Slice)
    requires lo <= hi <= a.Length && tol >= 0.0 && pts == a[lo..hi]
    requires beside.Valid() && (beside.arr == a ==> beside.off + beside.len <= lo + 1)
    modifies a
    ensures out.Valid() && out.Contents() == Simplify(pts, tol)
    ensures beside.Contents() == old(beside.Contents())
    ensures forall i :: 0 <= i < a.Length && !(lo < i < hi - 1) ==> a[i] == old(a[i])
    decreases hi - lo, 3
  {
    hide Simplify;
    out := SimplifyInPlace(a, lo, hi, tol);
  }

  /** The equation of a split, and what the append needs to know of its halves. */
  lemma SplitParts(pts: seq<Point>, tol: real) returns (left: seq<Point>, right: seq<Point>)
    requires tol >= 0.0 && |pts| >= 3 && MaxDev(pts) > Sq(tol)
    ensures var idx := Farthest(pts);
            && 0 < idx < |pts| - 1
            && left == Simplify(pts[..idx + 1], tol) && right == Simplify(pts[idx..], tol)
    ensures |left| >= 2 && |right| >= 2 && |left| - 1 + |right| <= |pts|
    ensures Simplify(pts, tol) == left[..|left| - 1] + right
    ensures right[|right| - 1] == pts[|pts| - 1]
  {
    hide PerpDistSq, Sq, Farthest, MaxDev, Simplify;
    SplitEquation(pts, tol);
    var idx := Farthest(pts);
    left, right := Simplify(pts[..idx + 1], tol), Simplify(pts[idx..], tol);
  }

  /** The two recursive calls and the append, once the split point is known. */
  method SimplifySplit(a: array<Point>, lo: nat, hi: nat, idx: nat, tol: real) returns (out: Slice)
    requires lo + 3 <= hi <= a.Length && tol >= 0.0
    requires MaxDev(a[lo..hi]) > Sq(tol) && idx == Farthest(a[lo..hi])
    modifies a
    ensures out.Valid() && out.Contents() == Simplify(old(a[lo..hi]), tol)
    ensures (out.arr == a && out.off == lo) || fresh(out.arr)
    ensures forall i :: 0 <= i < a.Length && !(lo < i < hi - 1) ==> a[i] == old(a[i])
    decreases hi - lo, 1
  {
    hide PerpDistSq, Sq, Farthest, MaxDev, Simplify;
    ghost var pts := a[lo..hi];
    ghost var last := a[hi - 1];
    ghost var left, right := SplitParts(pts, tol);
    assert last == right[|right| - 1];
    var l, r := SimplifyHalves(a, lo, hi, idx, tol, pts);
    out := AppendInside(a, lo, hi, l, r, left, right);
  }

  /** The final append of `dp`: when it reuses the input it stays inside the window and keeps both ends. */
  method AppendInside(a: array<Point>, lo: nat, hi: nat, l: Slice, r: Slice,
                      ghost left: seq<Point>, ghost right: seq<Point>)
    returns (out: Slice)
    requires lo + 3 <= hi <= a.Length
    requires l.Valid() && r.Valid() && l.Contents() == left && r.Contents() == right
    requires l.arr == a ==> l.off == lo
    requires |left| >= 2 && |right| >= 2 && |left| - 1 + |right| <= hi - lo && right[|right| - 1] == a[hi - 1]
    modifies l.arr
    ensures out.Valid() && out.Contents() == left[..|left| - 1] + right
    ensures (out.arr == l.arr && out.off == l.off) || fresh(out.arr)
    ensures forall i :: 0 <= i < a.Length && !(lo < i < hi - 1) ==> a[i] == old(a[i])
  {
    ghost var mid := a[..];
    out := AppendDroppingLast(l, r, left, right);
    if l.arr == a {
      EndsIntact(a, mid, out, lo, hi, l.len);
    }
  }

  /** An append that stays inside the window rewrites its last element with itself. */
  lemma EndsIntact(a: array<Point>, mid: seq<Point>, out: Slice, lo: nat, hi: nat, kept: nat)
    requires lo + 3 <= hi <= a.Length == |mid| && kept >= 2
    requires out.Valid() && kept <= out.len <= hi - lo && out.Contents()[out.len - 1] == mid[hi - 1]
    requires out.arr == a && out.off == lo
    requires forall i :: 0 <= i < a.Length && !(lo + kept - 1 <= i < lo + out.len) ==> a[i] == mid[i]
    ensures forall i :: 0 <= i < a.Length && !(lo < i < hi - 1) ==> a[i] == mid[i]
  {
    if out.len == hi - lo {
      assert a[hi - 1] == out.Contents()[out.len - 1];
    }
  }
}
