/**
 * The Mirror Maze level catalog: five fixed levels, each a square grid with
 * the two start cells, the two goal cells and the wall cells.
 */
module Levels {

  /** A grid cell; `x` grows to the right and `y` grows downwards. */
  datatype Pos = Pos(x: int, y: int)

  /** One entry of the catalog. */
  datatype Level = Level(
    width: nat, height: nat,
    player1: Pos, player2: Pos,
    goal1: Pos, goal2: Pos,
    walls: seq<Pos>)

  /** Level 1: zigzag paths (levels.js:3-16); each wall line of the source is one segment below. */
  const ZigzagPaths: Level :=
    Level(8, 8, Pos(1, 1), Pos(6, 6), Pos(6, 1), Pos(1, 6),
        Column(2, 2, 5) +
        Column(3, 1, 4) +
        Column(4, 3, 6) +
        Column(5, 2, 5))

  /**
   * Level 2: spiral maze (levels.js:18-33). The six-cell wall lines are
   * column segments; the two-cell lines (levels.js:27, 29, 31) are kept as
   * the literal pairs of cells they are.
   */
  const SpiralMaze: Level :=
    Level(10, 10, Pos(1, 1), Pos(8, 8), Pos(8, 1), Pos(1, 8),
        Column(2, 2, 7) +
        [Pos(3, 2), Pos(3, 7)] +
        Column(4, 2, 7) +
        [Pos(5, 2), Pos(5, 7)] +
        Column(6, 2, 7) +
        [Pos(7, 2), Pos(7, 7)])

  /** Level 3: complex crossing (levels.js:35-52); each wall line of the source is one segment below. */
  const ComplexCrossing: Level :=
    Level(12, 12, Pos(1, 1), Pos(10, 10), Pos(10, 1), Pos(1, 10),
        Column(2, 2, 9) +
        Column(9, 2, 9) +
        Row(2, 3, 8) +
        Row(9, 3, 8) +
        Column(4, 4, 7) +
        Column(7, 4, 7) +
        Column(5, 3, 5) +
        Column(6, 6, 8))

  /** Level 4: multiple paths with dead ends (levels.js:54-73); each wall line of the source is one segment below. */
  const DeadEnds: Level :=
    Level(14, 14, Pos(1, 1), Pos(12, 12), Pos(12, 1), Pos(1, 12),
        Column(2, 2, 11) +
        Column(11, 2, 11) +
        Row(2, 3, 10) +
        Row(11, 3, 10) +
        Column(4, 4, 9) +
        Column(9, 4, 9) +
        Column(6, 3, 6) +
        Column(7, 7, 10) +
        Column(5, 6, 8) +
        Column(8, 5, 7))

  /** Level 5: ultimate challenge (levels.js:75-96); each wall line of the source is one segment below. */
  const UltimateChallenge: Level :=
    Level(16, 16, Pos(1, 1), Pos(14, 14), Pos(14, 1), Pos(1, 14),
        Column(2, 2, 13) +
        Column(13, 2, 13) +
        Row(2, 3, 12) +
        Row(13, 3, 12) +
        Column(4, 4, 11) +
        Column(11, 4, 11) +
        Column(6, 4, 9) +
        Column(9, 4, 9) +
        Column(5, 3, 6) +
        Column(10, 8, 11) +
        Column(7, 5, 8) +
        Column(8, 6, 9))

  /** The vertical run of wall cells (x, y0) .. (x, y1), top to bottom. */
  function Column(x: int, y0: int, y1: int): seq<Pos>
  {
    seq(if y0 <= y1 then y1 - y0 + 1 else 0, i => Pos(x, y0 + i))
  }

  /** The horizontal run of wall cells (x0, y) .. (x1, y), left to right. */
  function Row(y: int, x0: int, x1: int): seq<Pos>
  {
    seq(if x0 <= x1 then x1 - x0 + 1 else 0, i => Pos(x0 + i, y))
  }

  /** The cells of a column or a row are exactly those between its two ends. */
  lemma SegmentCells()
    ensures forall x, y0, y1, p :: p in Column(x, y0, y1) <==> p.x == x && y0 <= p.y <= y1
    ensures forall y, x0, x1, p :: p in Row(y, x0, x1) <==> p.y == y && x0 <= p.x <= x1
  {
    forall x, y0, y1, p: Pos | p.x == x && y0 <= p.y <= y1
      ensures p in Column(x, y0, y1)
    {
      assert Column(x, y0, y1)[p.y - y0] == p;
    }
    forall y, x0, x1, p: Pos | p.y == y && x0 <= p.x <= x1
      ensures p in Row(y, x0, x1)
    {
      assert Row(y, x0, x1)[p.x - x0] == p;
    }
  }

  /** The catalog, in play order. */
  const LEVELS: seq<Level> := [ZigzagPaths, SpiralMaze, ComplexCrossing, DeadEnds, UltimateChallenge]

  /** The cell lies on the grid of `l`. */
  predicate InBounds(l: Level, p: Pos)
  {
    0 <= p.x < l.width && 0 <= p.y < l.height
  }

  /**
   * The point reflection of `p` through the centre of the grid of `l`. The
   * first ensures is the property; the second only exposes the definition.
   */
  function Reflect(l: Level, p: Pos): (r: Pos)
    ensures InBounds(l, p) <==> InBounds(l, r)
    ensures r.x + p.x == l.width - 1 && r.y + p.y == l.height - 1
  {
    Pos(l.width - 1 - p.x, l.height - 1 - p.y)
  }

  /** Every start, goal and wall cell is on the grid, and no start or goal is a wall. */
  ghost predicate WellFormed(l: Level)
  {
    && InBounds(l, l.player1) && InBounds(l, l.player2)
    && InBounds(l, l.goal1) && InBounds(l, l.goal2)
    && (forall w :: w in l.walls ==> InBounds(l, w))
    && l.player1 !in l.walls && l.player2 !in l.walls
    && l.goal1 !in l.walls && l.goal2 !in l.walls
  }

  /** Player 2 starts and finishes at the reflections of player 1's cells. */
  ghost predicate Mirrored(l: Level)
  {
    l.player2 == Reflect(l, l.player1) && l.goal2 == Reflect(l, l.goal1)
  }

  /** Neither goal is a start cell, so no level is won before the first move. */
  ghost predicate GoalsAwayFromStarts(l: Level)
  {
    && l.goal1 != l.player1 && l.goal1 != l.player2
    && l.goal2 != l.player1 && l.goal2 != l.player2
  }

  /** Five square levels of sizes 8, 10, 12, 14 and 16. */
  lemma CatalogSizes()
    ensures |LEVELS| == 5
    ensures forall i :: 0 <= i < |LEVELS| ==> LEVELS[i].width == LEVELS[i].height == 8 + 2 * i
  {
  }

  /** The grids never shrink from one level to a later one. */
  lemma GridsGrow(i: nat, j: nat)
    requires i <= j < |LEVELS|
    ensures LEVELS[i].width <= LEVELS[j].width && LEVELS[i].height <= LEVELS[j].height
  {
    CatalogSizes();
  }

  lemma ZigzagPathsWellFormed()
    ensures WellFormed(ZigzagPaths) && Mirrored(ZigzagPaths) && GoalsAwayFromStarts(ZigzagPaths)
  {
    SegmentCells();
  }

  lemma SpiralMazeWellFormed()
    ensures WellFormed(SpiralMaze) && Mirrored(SpiralMaze) && GoalsAwayFromStarts(SpiralMaze)
  {
    SegmentCells();
  }

  lemma ComplexCrossingWellFormed()
    ensures WellFormed(ComplexCrossing) && Mirrored(ComplexCrossing) && GoalsAwayFromStarts(ComplexCrossing)
  {
    SegmentCells();
  }

  lemma DeadEndsWellFormed()
    ensures WellFormed(DeadEnds) && Mirrored(DeadEnds) && GoalsAwayFromStarts(DeadEnds)
  {
    SegmentCells();
  }

  lemma UltimateChallengeWellFormed()
    ensures WellFormed(UltimateChallenge) && Mirrored(UltimateChallenge) && GoalsAwayFromStarts(UltimateChallenge)
  {
    SegmentCells();
  }

  /** Every level of the catalog is well formed, mirrored and not won at its start. */
  lemma CatalogWellFormed()
    ensures forall i :: 0 <= i < |LEVELS| ==>
      WellFormed(LEVELS[i]) && Mirrored(LEVELS[i]) && GoalsAwayFromStarts(LEVELS[i])
  {
    ZigzagPathsWellFormed();
    SpiralMazeWellFormed();
    ComplexCrossingWellFormed();
    DeadEndsWellFormed();
    UltimateChallengeWellFormed();
  }

  /** The start cells of every level are on its grid and off its walls. */
  lemma StartsAreFree(i: nat)
    requires i < |LEVELS|
    ensures InBounds(LEVELS[i], LEVELS[i].player1) && LEVELS[i].player1 !in LEVELS[i].walls
    ensures InBounds(LEVELS[i], LEVELS[i].player2) && LEVELS[i].player2 !in LEVELS[i].walls
  {
    CatalogWellFormed();
  }

  /** A cell on the grid of one level is on the grid of the next. */
  lemma StillOnGrid(i: nat, p: Pos)
    requires i + 1 < |LEVELS| && InBounds(LEVELS[i], p)
    ensures InBounds(LEVELS[i + 1], p)
  {
    GridsGrow(i, i + 1);
  }
}
