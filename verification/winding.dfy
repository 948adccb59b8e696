/** The scoring block's point-in-triangle test (ssn_modes.cpp,
    `csTriDeterminant` and `csPointInArea`): a winding-number count over the
    three edges of a claimed triangle, after the inclusion algorithm of
    geomalgorithms.com. */
module Winding {
  import opened Vectors
  import opened Consts

  /** The three corners of a claimed area, in claim order. */
  datatype Triangle = Triangle(a: Vec2, b: Vec2, c: Vec2)

  /** One entry of the claim ledger. */
  datatype Area = Area(corners: Triangle, team: ClaimTeam)

  /** `csTriDeterminant`: twice the signed area of p0 -> p1 -> p2, positive
      when the turn is counter-clockwise. */
  function Det(p0: Vec2, p1: Vec2, p2: Vec2): (d: real)
    ensures p0 == p1 || p1 == p2 || p2 == p0 ==> d == 0.0
  {
    (p1.x - p0.x) * (p2.y - p0.y) - (p2.x - p0.x) * (p1.y - p0.y)
  }

  /** How an edge's endpoints are compared with the point's height: as the
      code is written (strict at both ends) or by the half-open rule of the
      cited algorithm (start inclusive, end exclusive). */
  datatype CrossingRule = AsWritten | HalfOpen

  /** The edge s -> e crosses the horizontal line through p going up. */
  predicate Upward(rule: CrossingRule, s: Vec2, e: Vec2, p: Vec2) {
    match rule
    case AsWritten => s.y < p.y && e.y > p.y
    case HalfOpen => s.y <= p.y && e.y > p.y
  }

  /** The edge s -> e crosses the horizontal line through p going down. */
  predicate Downward(rule: CrossingRule, s: Vec2, e: Vec2, p: Vec2) {
    match rule
    case AsWritten => s.y > p.y && e.y < p.y
    case HalfOpen => s.y > p.y && e.y <= p.y
  }

  /** One iteration of the corner loop: +1 for an upward crossing with p
      strictly left of the edge, -1 for a downward crossing with p strictly
      right of it, 0 otherwise. */
  function EdgeWinding(rule: CrossingRule, s: Vec2, e: Vec2, p: Vec2): (w: int)
    ensures -1 <= w <= 1
    ensures w == 1 ==> Upward(rule, s, e, p)
    ensures w == -1 ==> Downward(rule, s, e, p)
    ensures rule == AsWritten && (s.y == p.y || e.y == p.y) ==> w == 0
  {
    if Upward(rule, s, e, p) then (if Det(s, e, p) > 0.0 then 1 else 0)
    else if Downward(rule, s, e, p) then (if Det(s, e, p) < 0.0 then -1 else 0)
    else 0
  }

  /** Where the (non-horizontal) line through s and e meets the horizontal
      line through p. */
  function CrossingX(s: Vec2, e: Vec2, p: Vec2): real
    requires e.y != s.y
  {
    s.x + (e.x - s.x) * ((p.y - s.y) / (e.y - s.y))
  }

  /** The winding count over the edges a -> b, b -> c, c -> a. */
  function WindCount(rule: CrossingRule, p: Vec2, t: Triangle): int {
    EdgeWinding(rule, t.a, t.b, p) + EdgeWinding(rule, t.b, t.c, p) + EdgeWinding(rule, t.c, t.a, p)
  }

  /** `csPointInArea`: a non-zero winding count. */
  predicate PointInArea(rule: CrossingRule, p: Vec2, t: Triangle) {
    WindCount(rule, p, t) != 0
  }

  /** Twice the signed area of the triangle; zero when the corners are
      collinear. */
  function SignedArea(t: Triangle): real {
    Det(t.a, t.b, t.c)
  }

  /** p is strictly on the same side of all three edges. */
  predicate StrictlyInside(p: Vec2, t: Triangle) {
    || (Det(t.a, t.b, p) > 0.0 && Det(t.b, t.c, p) > 0.0 && Det(t.c, t.a, p) > 0.0)
    || (Det(t.a, t.b, p) < 0.0 && Det(t.b, t.c, p) < 0.0 && Det(t.c, t.a, p) < 0.0)
  }

  /** p is inside or on the boundary of the triangle. */
  predicate InClosedTriangle(p: Vec2, t: Triangle) {
    || (Det(t.a, t.b, p) >= 0.0 && Det(t.b, t.c, p) >= 0.0 && Det(t.c, t.a, p) >= 0.0)
    || (Det(t.a, t.b, p) <= 0.0 && Det(t.b, t.c, p) <= 0.0 && Det(t.c, t.a, p) <= 0.0)
  }

  /** p is at the height of some corner. */
  predicate LevelWithCorner(p: Vec2, t: Triangle) {
    p.y == t.a.y || p.y == t.b.y || p.y == t.c.y
  }

  /** p lies on the line through some edge. */
  predicate OnEdgeLine(p: Vec2, t: Triangle) {
    Det(t.a, t.b, p) == 0.0 || Det(t.b, t.c, p) == 0.0 || Det(t.c, t.a, p) == 0.0
  }

  // ---------------------------------------------------------------------
  // Single edges

  lemma MulPosSign(k: real, v: real)
    requires k > 0.0
    ensures k * v > 0.0 <==> v > 0.0
    ensures k * v < 0.0 <==> v < 0.0
  {
    if v > 0.0 { assert k * v > 0.0; }
    else if v < 0.0 { assert k * v < 0.0; }
    else { assert k * v == 0.0; }
  }

  /** The determinant of an edge and p factors through the edge's height
      change and p's horizontal distance to the crossing point. */
  lemma DetAtCrossing(s: Vec2, e: Vec2, p: Vec2)
    requires e.y != s.y
    ensures Det(s, e, p) == (e.y - s.y) * (CrossingX(s, e, p) - p.x)
  {
    var dy := e.y - s.y;
    var t := (p.y - s.y) / dy;
    assert p.y - s.y == t * dy;
    calc {
      Det(s, e, p);
      (e.x - s.x) * (p.y - s.y) - (p.x - s.x) * dy;
      (e.x - s.x) * (t * dy) - (p.x - s.x) * dy;
      dy * ((e.x - s.x) * t - (p.x - s.x));
      dy * (CrossingX(s, e, p) - p.x);
    }
  }

  /** An edge counts exactly when it crosses the horizontal ray from p to
      the right: +1 going up, -1 going down. */
  lemma {:induction false} EdgeCountsRightwardCrossing(rule: CrossingRule, s: Vec2, e: Vec2, p: Vec2)
    ensures EdgeWinding(rule, s, e, p) == 1 <==> Upward(rule, s, e, p) && CrossingX(s, e, p) > p.x
    ensures EdgeWinding(rule, s, e, p) == -1 <==> Downward(rule, s, e, p) && CrossingX(s, e, p) > p.x
  {
    if Upward(rule, s, e, p) {
      DetAtCrossing(s, e, p);
      MulPosSign(e.y - s.y, CrossingX(s, e, p) - p.x);
    } else if Downward(rule, s, e, p) {
      DetAtCrossing(s, e, p);
      assert Det(s, e, p) == (s.y - e.y) * (p.x - CrossingX(s, e, p));
      MulPosSign(s.y - e.y, p.x - CrossingX(s, e, p));
    }
  }

  /** Reversing an edge negates its contribution. */
  lemma EdgeReversal(rule: CrossingRule, s: Vec2, e: Vec2, p: Vec2)
    ensures EdgeWinding(rule, e, s, p) == -EdgeWinding(rule, s, e, p)
  {
    assert Det(e, s, p) == -Det(s, e, p);
  }

  /** Listing the corners in the opposite order negates the count, so the
      test does not depend on the triangle's orientation. */
  lemma OrientationIndependent(rule: CrossingRule, p: Vec2, t: Triangle)
    ensures WindCount(rule, p, Triangle(t.a, t.c, t.b)) == -WindCount(rule, p, t)
    ensures PointInArea(rule, p, Triangle(t.a, t.c, t.b)) == PointInArea(rule, p, t)
  {
    EdgeReversal(rule, t.a, t.b, p);
    EdgeReversal(rule, t.b, t.c, p);
    EdgeReversal(rule, t.c, t.a, p);
  }

  // ---------------------------------------------------------------------
  // Whole triangles under the half-open rule

  lemma DetIdentities(a: Vec2, b: Vec2, c: Vec2, p: Vec2)
    ensures Det(b, c, p) + Det(c, a, p) + Det(a, b, p) == Det(a, b, c)
    ensures Det(b, c, p) * (a.y - p.y) + Det(c, a, p) * (b.y - p.y) + Det(a, b, p) * (c.y - p.y) == 0.0
  {
  }

  /** What the count says about the triangle: its sign is the orientation
      of a triangle that holds p in its closure, and every point strictly
      inside is counted. */
  ghost predicate CountFacts(w: int, p: Vec2, t: Triangle) {
    && -1 <= w <= 1
    && (w == 1 ==> InClosedTriangle(p, t) && SignedArea(t) > 0.0)
    && (w == -1 ==> InClosedTriangle(p, t) && SignedArea(t) < 0.0)
    && (StrictlyInside(p, t) ==> w == (if SignedArea(t) > 0.0 then 1 else -1))
  }

  /** The sign of a product from the signs of its factors. */
  lemma ProductSign(x: real, y: real)
    ensures x > 0.0 && y > 0.0 ==> x * y > 0.0
    ensures x < 0.0 && y < 0.0 ==> x * y > 0.0
    ensures x > 0.0 && y < 0.0 ==> x * y < 0.0
    ensures x < 0.0 && y > 0.0 ==> x * y < 0.0
    ensures x >= 0.0 && y >= 0.0 ==> x * y >= 0.0
    ensures x <= 0.0 && y <= 0.0 ==> x * y >= 0.0
    ensures x >= 0.0 && y <= 0.0 ==> x * y <= 0.0
    ensures x <= 0.0 && y >= 0.0 ==> x * y <= 0.0
  {
  }

  /** Corner a alone on or below p's height, b and c above it. */
  lemma AloneBelow(p: Vec2, t: Triangle)
    requires t.a.y <= p.y && t.b.y > p.y && t.c.y > p.y
    ensures CountFacts(WindCount(HalfOpen, p, t), p, t)
  {
    var da, db, dc := Det(t.b, t.c, p), Det(t.c, t.a, p), Det(t.a, t.b, p);
    var ya, yb, yc := t.a.y - p.y, t.b.y - p.y, t.c.y - p.y;
    DetIdentities(t.a, t.b, t.c, p);
    ProductSign(da, ya);
    ProductSign(db, yb);
    ProductSign(dc, yc);
    assert WindCount(HalfOpen, p, t) == (if dc > 0.0 then 1 else 0) + (if db < 0.0 then -1 else 0);
  }

  /** Corner a alone above p's height, b and c on or below it. */
  lemma AloneAbove(p: Vec2, t: Triangle)
    requires t.a.y > p.y && t.b.y <= p.y && t.c.y <= p.y
    ensures CountFacts(WindCount(HalfOpen, p, t), p, t)
  {
    var da, db, dc := Det(t.b, t.c, p), Det(t.c, t.a, p), Det(t.a, t.b, p);
    var ya, yb, yc := t.a.y - p.y, t.b.y - p.y, t.c.y - p.y;
    DetIdentities(t.a, t.b, t.c, p);
    ProductSign(da, ya);
    ProductSign(db, yb);
    ProductSign(dc, yc);
    assert WindCount(HalfOpen, p, t) == (if dc < 0.0 then -1 else 0) + (if db > 0.0 then 1 else 0);
  }

  /** All corners on one side of p's height: no edge crosses, and no point
      strictly inside can be there. */
  lemma NoCrossing(p: Vec2, t: Triangle)
    requires (t.a.y > p.y && t.b.y > p.y && t.c.y > p.y) || (t.a.y <= p.y && t.b.y <= p.y && t.c.y <= p.y)
    ensures CountFacts(WindCount(HalfOpen, p, t), p, t)
  {
    assert WindCount(HalfOpen, p, t) == 0;
    var da, db, dc := Det(t.b, t.c, p), Det(t.c, t.a, p), Det(t.a, t.b, p);
    var ya, yb, yc := t.a.y - p.y, t.b.y - p.y, t.c.y - p.y;
    DetIdentities(t.a, t.b, t.c, p);
    ProductSign(da, ya);
    ProductSign(db, yb);
    ProductSign(dc, yc);
  }

  /** Relabelling the corners cyclically changes neither the count nor the
      facts. */
  lemma RotateFacts(p: Vec2, t: Triangle)
    requires CountFacts(WindCount(HalfOpen, p, Triangle(t.b, t.c, t.a)), p, Triangle(t.b, t.c, t.a))
    ensures CountFacts(WindCount(HalfOpen, p, t), p, t)
  {
    assert SignedArea(Triangle(t.b, t.c, t.a)) == SignedArea(t);
    assert WindCount(HalfOpen, p, Triangle(t.b, t.c, t.a)) == WindCount(HalfOpen, p, t);
  }

  /** Every triangle and every point satisfy the count facts under the
      half-open rule. */
  lemma {:induction false} HalfOpenFacts(p: Vec2, t: Triangle)
    ensures CountFacts(WindCount(HalfOpen, p, t), p, t)
  {
    var ua, ub, uc := t.a.y > p.y, t.b.y > p.y, t.c.y > p.y;
    if ua == ub && ub == uc {
      NoCrossing(p, t);
    } else if ub == uc {
      if ua { AloneAbove(p, t); } else { AloneBelow(p, t); }
    } else if ua == uc {
      var r := Triangle(t.b, t.c, t.a);
      if ub { AloneAbove(p, r); } else { AloneBelow(p, r); }
      RotateFacts(p, t);
    } else {
      var r := Triangle(t.c, t.a, t.b);
      if uc { AloneAbove(p, r); } else { AloneBelow(p, r); }
      RotateFacts(p, Triangle(t.b, t.c, t.a));
      RotateFacts(p, t);
    }
  }

  /** Half-open rule: a counted point lies in the closed triangle, which is
      not degenerate; every point strictly inside is counted; collinear
      corners contain nothing. */
  lemma HalfOpenSoundAndComplete(p: Vec2, t: Triangle)
    ensures PointInArea(HalfOpen, p, t) ==> InClosedTriangle(p, t) && SignedArea(t) != 0.0
    ensures StrictlyInside(p, t) ==> PointInArea(HalfOpen, p, t)
    ensures SignedArea(t) == 0.0 ==> !PointInArea(HalfOpen, p, t)
  {
    HalfOpenFacts(p, t);
  }

  // ---------------------------------------------------------------------
  // The code as written

  /** Away from corner heights the two rules agree edge by edge. */
  lemma AsWrittenAgreesOffLevel(p: Vec2, t: Triangle)
    requires !LevelWithCorner(p, t)
    ensures WindCount(AsWritten, p, t) == WindCount(HalfOpen, p, t)
  {
  }

  /** For a point not level with any corner the code's test is sound and
      complete; for one that is also off every edge line it holds exactly
      for the points strictly inside, whatever the corner orientation. */
  lemma AsWrittenOffLevel(p: Vec2, t: Triangle)
    requires !LevelWithCorner(p, t)
    ensures PointInArea(AsWritten, p, t) ==> InClosedTriangle(p, t) && SignedArea(t) != 0.0
    ensures StrictlyInside(p, t) ==> PointInArea(AsWritten, p, t)
    ensures SignedArea(t) == 0.0 ==> !PointInArea(AsWritten, p, t)
    ensures !OnEdgeLine(p, t) ==> (PointInArea(AsWritten, p, t) <==> StrictlyInside(p, t))
  {
    AsWrittenAgreesOffLevel(p, t);
    HalfOpenSoundAndComplete(p, t);
  }

  /** A triangle with a vertical edge c -> a, and a point on that edge
      half-way up, level with no corner. */
  const EdgeExampleTriangle: Triangle := Triangle(Vec2(0.0, 0.0), Vec2(2.0, 2.0), Vec2(0.0, 2.0))
  const EdgeExamplePoint: Vec2 := Vec2(0.0, 1.0)

  /** On the boundary the count follows the half-open convention of the
      algorithm: this point on the edge c -> a is counted although it is not
      strictly inside, so "counted iff strictly inside" needs the point off
      the edge lines as well as off the corner heights. */
  lemma BoundaryPointCounted()
    ensures !LevelWithCorner(EdgeExamplePoint, EdgeExampleTriangle)
    ensures PointInArea(AsWritten, EdgeExamplePoint, EdgeExampleTriangle)
    ensures !StrictlyInside(EdgeExamplePoint, EdgeExampleTriangle)
  {
    EdgeExampleCount();
    EdgeExampleOnEdge();
  }

  lemma EdgeExampleCount()
    ensures WindCount(AsWritten, EdgeExamplePoint, EdgeExampleTriangle) == 1
  {
    var t, p := EdgeExampleTriangle, EdgeExamplePoint;
    assert EdgeWinding(AsWritten, t.a, t.b, p) == 1;
    assert EdgeWinding(AsWritten, t.b, t.c, p) == 0;
    assert EdgeWinding(AsWritten, t.c, t.a, p) == 0;
  }

  lemma EdgeExampleOnEdge()
    ensures !StrictlyInside(EdgeExamplePoint, EdgeExampleTriangle)
  {
    assert Det(EdgeExampleTriangle.c, EdgeExampleTriangle.a, EdgeExamplePoint) == 0.0;
  }

  /** Comparing strictly at both endpoints drops the edges that touch a
      corner at p's height, so for such a point the crossings no longer
      pair up: here p lies far to the left of the triangle, yet the code
      counts it, while the half-open rule does not. */
  lemma AsWrittenCountsOutsidePoint()
    ensures var t := Triangle(Vec2(0.0, 0.0), Vec2(1.0, 1.0), Vec2(0.0, 2.0));
            var p := Vec2(-5.0, 1.0);
            && PointInArea(AsWritten, p, t)
            && !InClosedTriangle(p, t)
            && !PointInArea(HalfOpen, p, t)
  {
    var t := Triangle(Vec2(0.0, 0.0), Vec2(1.0, 1.0), Vec2(0.0, 2.0));
    var p := Vec2(-5.0, 1.0);
    assert EdgeWinding(AsWritten, t.c, t.a, p) == -1;
    assert EdgeWinding(HalfOpen, t.b, t.c, p) == 1;
  }
}
