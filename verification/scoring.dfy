/** The scoring block of the game tick (ssn_modes.cpp): a 512 x 512 grid of
    pixel centres laid over the playfield, each credited to the team of the
    most recently claimed area that contains it. */
module Scoring {
  import opened Vectors
  import opened Options
  import opened Consts
  import opened Bodies
  import opened Winding

  /** `cPixelRes`, in both directions. */
  const PIXEL_RES: nat := 512

  /** Centre of pixel (x, y): the fraction (i + 0.5) / 512 interpolated
      linearly across the playfield box on each axis. */
  function PixelCenter(b: Box, x: nat, y: nat): Vec2 {
    Vec2(b.pos.x + b.dims.x * ((x as real + 0.5) / PIXEL_RES as real),
         b.pos.y + b.dims.y * ((y as real + 0.5) / PIXEL_RES as real))
  }

  /** The team credited with point p: that of the newest area containing it,
      scanning the ledger from its end; None when no area contains it. */
  function Owner(rule: CrossingRule, areas: seq<Area>, p: Vec2): Option<ClaimTeam>
    decreases |areas|
  {
    if |areas| == 0 then None
    else if PointInArea(rule, p, areas[|areas| - 1].corners) then Some(areas[|areas| - 1].team)
    else Owner(rule, areas[..|areas| - 1], p)
  }

  /** Area i contains p and no newer area does. */
  ghost predicate NewestContainer(rule: CrossingRule, areas: seq<Area>, p: Vec2, i: int) {
    && 0 <= i < |areas|
    && PointInArea(rule, p, areas[i].corners)
    && forall j :: i < j < |areas| ==> !PointInArea(rule, p, areas[j].corners)
  }

  /** Removing the newest area leaves every older area's newest-container
      status as it was, provided the removed area does not contain p. */
  lemma NewestContainerInFront(rule: CrossingRule, areas: seq<Area>, p: Vec2, i: int)
    requires |areas| > 0 && !PointInArea(rule, p, areas[|areas| - 1].corners)
    ensures NewestContainer(rule, areas, p, i) <==> NewestContainer(rule, areas[..|areas| - 1], p, i)
  {
    var n := |areas| - 1;
    var front := areas[..n];
    if NewestContainer(rule, areas, p, i) {
      assert front[i] == areas[i];
      forall j | i < j < n ensures !PointInArea(rule, p, front[j].corners) {
        assert front[j] == areas[j];
      }
    }
    if NewestContainer(rule, front, p, i) {
      assert front[i] == areas[i];
      forall j | i < j < |areas| ensures !PointInArea(rule, p, areas[j].corners) {
        if j < n { assert front[j] == areas[j]; }
      }
    }
  }

  /** The owner is the team of the newest containing area. */
  lemma {:induction false} OwnerIsNewestContainer(rule: CrossingRule, areas: seq<Area>, p: Vec2)
    ensures Owner(rule, areas, p).Some? <==> exists i :: NewestContainer(rule, areas, p, i)
    ensures forall i :: NewestContainer(rule, areas, p, i) ==> Owner(rule, areas, p) == Some(areas[i].team)
    decreases |areas|
  {
    if |areas| > 0 {
      var n := |areas| - 1;
      if PointInArea(rule, p, areas[n].corners) {
        assert NewestContainer(rule, areas, p, n);
      } else {
        OwnerIsNewestContainer(rule, areas[..n], p);
        forall i ensures NewestContainer(rule, areas, p, i) <==> NewestContainer(rule, areas[..n], p, i) {
          NewestContainerInFront(rule, areas, p, i);
        }
      }
    }
  }

  /** There is no owner exactly when no area contains the point. */
  lemma {:induction false} NoOwnerIffUncovered(rule: CrossingRule, areas: seq<Area>, p: Vec2)
    ensures Owner(rule, areas, p).None? <==> forall i :: 0 <= i < |areas| ==> !PointInArea(rule, p, areas[i].corners)
    decreases |areas|
  {
    if |areas| > 0 {
      var n := |areas| - 1;
      var front := areas[..n];
      if !PointInArea(rule, p, areas[n].corners) {
        NoOwnerIffUncovered(rule, front, p);
        assert forall i :: 0 <= i < n ==> front[i] == areas[i];
      }
    }
  }

  /** At a point level with no corner of any claimed area, the code's
      strict crossing rule and the half-open rule credit the same team. */
  lemma {:induction false} OwnerAgreesOffLevel(areas: seq<Area>, p: Vec2)
    requires forall i :: 0 <= i < |areas| ==> !LevelWithCorner(p, areas[i].corners)
    ensures Owner(AsWritten, areas, p) == Owner(HalfOpen, areas, p)
    decreases |areas|
  {
    if |areas| > 0 {
      var n := |areas| - 1;
      AsWrittenAgreesOffLevel(p, areas[n].corners);
      assert forall i :: 0 <= i < n ==> areas[..n][i] == areas[i];
      OwnerAgreesOffLevel(areas[..n], p);
    }
  }

  /** No corner of any claimed area lies at the height of pixel row y
      (every pixel centre of a row has the same height). */
  ghost predicate RowOffLevel(areas: seq<Area>, b: Box, y: nat) {
    forall i :: 0 <= i < |areas| ==> !LevelWithCorner(PixelCenter(b, 0, y), areas[i].corners)
  }

  /** Number of pixels x < n of row y whose owner is o. */
  function RowCount(rule: CrossingRule, areas: seq<Area>, b: Box, y: nat, n: nat, o: Option<ClaimTeam>): nat
    decreases n
  {
    if n == 0 then 0
    else RowCount(rule, areas, b, y, n - 1, o) + (if Owner(rule, areas, PixelCenter(b, n - 1, y)) == o then 1 else 0)
  }

  /** Number of pixels x < n in rows y < m whose owner is o. */
  function GridCount(rule: CrossingRule, areas: seq<Area>, b: Box, m: nat, n: nat, o: Option<ClaimTeam>): nat
    decreases m
  {
    if m == 0 then 0
    else GridCount(rule, areas, b, m - 1, n, o) + RowCount(rule, areas, b, m - 1, n, o)
  }

  /** Every pixel of a row is credited to exactly one of left, right and
      nobody. */
  lemma {:induction false} RowPartition(rule: CrossingRule, areas: seq<Area>, b: Box, y: nat, n: nat)
    ensures RowCount(rule, areas, b, y, n, Some(Left)) + RowCount(rule, areas, b, y, n, Some(Right))
          + RowCount(rule, areas, b, y, n, None) == n
    decreases n
  {
    if n > 0 {
      RowPartition(rule, areas, b, y, n - 1);
    }
  }

  /** Every pixel of the first m rows of width n is credited to exactly
      one of left, right and nobody. */
  lemma {:induction false} GridPartition(rule: CrossingRule, areas: seq<Area>, b: Box, m: nat, n: nat)
    ensures GridCount(rule, areas, b, m, n, Some(Left)) + GridCount(rule, areas, b, m, n, Some(Right))
          + GridCount(rule, areas, b, m, n, None) == m * n
    decreases m
  {
    if m > 0 {
      GridPartition(rule, areas, b, m - 1, n);
      RowPartition(rule, areas, b, m - 1, n);
      assert (m - 1) * n + n == m * n;
    }
  }

  /** In a row at the height of no corner, the strict and half-open rules
      credit each owner with the same number of pixels. */
  lemma {:induction false} RowCountAgreesOffLevel(areas: seq<Area>, b: Box, y: nat, n: nat, o: Option<ClaimTeam>)
    requires RowOffLevel(areas, b, y)
    ensures RowCount(AsWritten, areas, b, y, n, o) == RowCount(HalfOpen, areas, b, y, n, o)
    decreases n
  {
    if n > 0 {
      RowCountAgreesOffLevel(areas, b, y, n - 1, o);
      assert PixelCenter(b, n - 1, y).y == PixelCenter(b, 0, y).y;
      OwnerAgreesOffLevel(areas, PixelCenter(b, n - 1, y));
    }
  }

  /** Over rows that are all at the height of no corner, the two rules give
      the same counts. */
  lemma {:induction false} GridCountAgreesOffLevel(areas: seq<Area>, b: Box, m: nat, n: nat, o: Option<ClaimTeam>)
    requires forall y: nat :: y < m ==> RowOffLevel(areas, b, y)
    ensures GridCount(AsWritten, areas, b, m, n, o) == GridCount(HalfOpen, areas, b, m, n, o)
    decreases m
  {
    if m > 0 {
      GridCountAgreesOffLevel(areas, b, m - 1, n, o);
      RowCountAgreesOffLevel(areas, b, m - 1, n, o);
    }
  }

  /** Unit playfield with a single left-owned area whose right corner lies
      exactly at the height of pixel row 255. */
  const LevelRowBox: Box := Box(Vec2(0.0, 0.0), Vec2(1.0, 1.0))
  const LevelRowAreas: seq<Area> :=
    [Area(Triangle(Vec2(0.5, 255.5 / 512.0 - 0.25), Vec2(0.75, 255.5 / 512.0), Vec2(0.5, 255.5 / 512.0 + 0.25)), Left)]

  /** On the row at a corner's height the code's strict rule misplaces
      pixels both ways: pixel (0, 255), far left of the area, is credited to
      the left team, and pixel (307, 255), strictly inside it, to nobody;
      the half-open rule gets both right. */
  lemma AsWrittenMiscreditsLevelRow()
    ensures !InClosedTriangle(PixelCenter(LevelRowBox, 0, 255), LevelRowAreas[0].corners)
    ensures Owner(AsWritten, LevelRowAreas, PixelCenter(LevelRowBox, 0, 255)) == Some(Left)
    ensures Owner(HalfOpen, LevelRowAreas, PixelCenter(LevelRowBox, 0, 255)) == None
    ensures StrictlyInside(PixelCenter(LevelRowBox, 307, 255), LevelRowAreas[0].corners)
    ensures Owner(AsWritten, LevelRowAreas, PixelCenter(LevelRowBox, 307, 255)) == None
    ensures Owner(HalfOpen, LevelRowAreas, PixelCenter(LevelRowBox, 307, 255)) == Some(Left)
  {
    var t := LevelRowAreas[0].corners;
    var out, inn := PixelCenter(LevelRowBox, 0, 255), PixelCenter(LevelRowBox, 307, 255);
    assert out == Vec2(0.5 / 512.0, 255.5 / 512.0);
    assert inn == Vec2(307.5 / 512.0, 255.5 / 512.0);
    assert EdgeWinding(AsWritten, t.c, t.a, out) != 0;
    assert EdgeWinding(HalfOpen, t.b, t.c, out) != 0;
    assert EdgeWinding(AsWritten, t.c, t.a, inn) == 0;
    assert EdgeWinding(HalfOpen, t.b, t.c, inn) != 0;
    assert Owner(AsWritten, LevelRowAreas[..0], out) == None;
  }

  /** The two per-team pixel counts the scoring block prints. */
  datatype Scores = Scores(left: nat, right: nat)

  /** The tally as a count over the whole grid. */
  function TallyScores(rule: CrossingRule, areas: seq<Area>, b: Box): Scores {
    Scores(GridCount(rule, areas, b, PIXEL_RES, PIXEL_RES, Some(Left)), GridCount(rule, areas, b, PIXEL_RES, PIXEL_RES, Some(Right)))
  }

  /** Together the teams are credited with at most every pixel once; with
      the unclaimed pixels they account for all of them. */
  lemma TallyConservation(rule: CrossingRule, areas: seq<Area>, b: Box)
    ensures var s := TallyScores(rule, areas, b);
            s.left + s.right + GridCount(rule, areas, b, PIXEL_RES, PIXEL_RES, None) == PIXEL_RES * PIXEL_RES
    ensures TallyScores(rule, areas, b).left + TallyScores(rule, areas, b).right <= PIXEL_RES * PIXEL_RES
  {
    GridPartition(rule, areas, b, PIXEL_RES, PIXEL_RES);
  }

  /** When no pixel row lies at a corner's height, the tally is the same
      under the code's strict rule and the half-open rule. */
  lemma TallyAgreesOffLevel(areas: seq<Area>, b: Box)
    requires forall y: nat :: y < PIXEL_RES ==> RowOffLevel(areas, b, y)
    ensures TallyScores(AsWritten, areas, b) == TallyScores(HalfOpen, areas, b)
  {
    GridCountAgreesOffLevel(areas, b, PIXEL_RES, PIXEL_RES, Some(Left));
    GridCountAgreesOffLevel(areas, b, PIXEL_RES, PIXEL_RES, Some(Right));
  }

  /** The innermost scoring loop for one pixel centre p: areas newest-first,
      incrementing the first container's team slot and stopping there. */
  method CreditPixel(rule: CrossingRule, areas: seq<Area>, p: Vec2, s: Scores) returns (r: Scores)
    ensures r.left == s.left + (if Owner(rule, areas, p) == Some(Left) then 1 else 0)
    ensures r.right == s.right + (if Owner(rule, areas, p) == Some(Right) then 1 else 0)
  {
    r := s;
    var k := |areas|;
    assert areas[..k] == areas;
    while k > 0
      invariant 0 <= k <= |areas|
      invariant Owner(rule, areas[..k], p) == Owner(rule, areas, p)
      invariant r == s
    {
      k := k - 1;
      assert areas[..k + 1][..k] == areas[..k];
      if PointInArea(rule, p, areas[k].corners) {
        // the owner's enum value picks the slot: 0 is left, 1 is right
        if TeamIndex(areas[k].team) == 0 {
          r := r.(left := r.left + 1);
        } else {
          r := r.(right := r.right + 1);
        }
        break;
      }
    }
  }

  /** The pixel loop over the first n pixels of row y, adding their
      credits to s. */
  method TallyRow(rule: CrossingRule, areas: seq<Area>, b: Box, y: nat, n: nat, s: Scores) returns (r: Scores)
    ensures r.left == s.left + RowCount(rule, areas, b, y, n, Some(Left))
    ensures r.right == s.right + RowCount(rule, areas, b, y, n, Some(Right))
  {
    r := s;
    var x := 0;
    while x < n
      invariant 0 <= x <= n
      invariant r.left == s.left + RowCount(rule, areas, b, y, x, Some(Left))
      invariant r.right == s.right + RowCount(rule, areas, b, y, x, Some(Right))
    {
      r := CreditPixel(rule, areas, PixelCenter(b, x, y), r);
      x := x + 1;
    }
  }

  /** The row loop over the first m rows of width n. */
  method TallyGrid(rule: CrossingRule, areas: seq<Area>, b: Box, m: nat, n: nat) returns (s: Scores)
    ensures s.left == GridCount(rule, areas, b, m, n, Some(Left))
    ensures s.right == GridCount(rule, areas, b, m, n, Some(Right))
  {
    s := Scores(0, 0);
    var y := 0;
    while y < m
      invariant 0 <= y <= m
      invariant s.left == GridCount(rule, areas, b, y, n, Some(Left))
      invariant s.right == GridCount(rule, areas, b, y, n, Some(Right))
    {
      s := TallyRow(rule, areas, b, y, n, s);
      y := y + 1;
    }
  }

  /** The scoring loops of `game::update` over the 512 x 512 grid. */
  method Tally(rule: CrossingRule, areas: seq<Area>, b: Box) returns (s: Scores)
    ensures s == TallyScores(rule, areas, b)
  {
    s := TallyGrid(rule, areas, b, PIXEL_RES, PIXEL_RES);
  }
}
