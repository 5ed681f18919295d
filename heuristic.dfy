/**
 * The search heuristic `manhattan_linear_conflict`: the Manhattan distances of
 * the tiles to their goal cells, plus 2 for every pair of tiles that sit in
 * their goal row (or goal column) in reversed order.
 */
module Heuristic {
  import opened Board

  function Abs(n: int): nat {
    if n < 0 then -n else n
  }

  /**
   * The tile at (i, k) is in conflict with a tile of goal column gj sitting
   * left of it in row i: it is not the blank, its goal row is i and its goal
   * column lies left of gj.
   */
  predicate RowConflictAt(g: Grid, i: int, k: int, gj: int)
    requires InRange(g) && InGrid(i, k)
  {
    var other := g[i][k];
    other != 0 && GoalPosition(other).0 == i && GoalPosition(other).1 < gj
  }

  /** The same test along column j for the tile at (k, j) and goal row gi. */
  predicate ColConflictAt(g: Grid, k: int, j: int, gi: int)
    requires InRange(g) && InGrid(k, j)
  {
    var other := g[k][j];
    other != 0 && GoalPosition(other).1 == j && GoalPosition(other).0 < gi
  }

  /** The number of columns j+1 .. k-1 of row i in conflict with goal column gj. */
  function RowConflicts(g: Grid, i: int, j: int, gj: int, k: int): nat
    requires InRange(g) && InGrid(i, j) && j + 1 <= k <= 4
    decreases k
  {
    if k == j + 1 then 0
    else RowConflicts(g, i, j, gj, k - 1) + (if RowConflictAt(g, i, k - 1, gj) then 1 else 0)
  }

  /** The number of rows i+1 .. k-1 of column j in conflict with goal row gi. */
  function ColConflicts(g: Grid, i: int, j: int, gi: int, k: int): nat
    requires InRange(g) && InGrid(i, j) && i + 1 <= k <= 4
    decreases k
  {
    if k == i + 1 then 0
    else ColConflicts(g, i, j, gi, k - 1) + (if ColConflictAt(g, k - 1, j, gi) then 1 else 0)
  }

  /** What the tile at (i, j) adds: its Manhattan distance and 2 per conflict it opens. */
  function CellCost(g: Grid, i: int, j: int): nat
    requires InRange(g) && InGrid(i, j)
  {
    var v := g[i][j];
    if v == 0 then 0
    else
      var (gi, gj) := GoalPosition(v);
      Abs(gi - i) + Abs(gj - j)
      + (if gi == i then 2 * RowConflicts(g, i, j, gj, 4) else 0)
      + (if gj == j then 2 * ColConflicts(g, i, j, gi, 4) else 0)
  }

  /** The sum of CellCost over the first j cells of row i. */
  function RowCost(g: Grid, i: int, j: int): nat
    requires InRange(g) && 0 <= i < 4 && 0 <= j <= 4
  {
    if j == 0 then 0 else RowCost(g, i, j - 1) + CellCost(g, i, j - 1)
  }

  /** The sum of CellCost over the first i rows. */
  function RowsCost(g: Grid, i: int): nat
    requires InRange(g) && 0 <= i <= 4
  {
    if i == 0 then 0 else RowsCost(g, i - 1) + RowCost(g, i - 1, 4)
  }

  /** The value `manhattan_linear_conflict` computes. */
  function Estimate(g: Grid): nat
    requires InRange(g)
  {
    RowsCost(g, 4)
  }

  /** The first inner `for k` loop: 2 for each conflicting tile right of (i, j) in row i. */
  method RowPenalty(puzzle: Grid, i: int, j: int, goalJ: int) returns (extra: nat)
    requires InRange(puzzle) && InGrid(i, j)
    ensures extra == 2 * RowConflicts(puzzle, i, j, goalJ, 4)
  {
    extra := 0;
    for k := j + 1 to 4
      invariant extra == 2 * RowConflicts(puzzle, i, j, goalJ, k)
    {
      var other := puzzle[i][k];
      if other != 0 && GoalPosition(other).0 == i && GoalPosition(other).1 < goalJ {
        extra := extra + 2;
      }
    }
  }

  /** The second inner `for k` loop: 2 for each conflicting tile below (i, j) in column j. */
  method ColumnPenalty(puzzle: Grid, i: int, j: int, goalI: int) returns (extra: nat)
    requires InRange(puzzle) && InGrid(i, j)
    ensures extra == 2 * ColConflicts(puzzle, i, j, goalI, 4)
  {
    extra := 0;
    for k := i + 1 to 4
      invariant extra == 2 * ColConflicts(puzzle, i, j, goalI, k)
    {
      var other := puzzle[k][j];
      if other != 0 && GoalPosition(other).1 == j && GoalPosition(other).0 < goalI {
        extra := extra + 2;
      }
    }
  }

  /**
   * The body of the loop over cells: nothing for the blank, else the tile's
   * Manhattan distance and the two conflict scans.
   */
  method TileCost(puzzle: Grid, i: int, j: int) returns (cost: nat)
    requires InRange(puzzle) && InGrid(i, j)
    ensures cost == CellCost(puzzle, i, j)
  {
    var val := puzzle[i][j];
    if val == 0 {
      return 0;
    }
    var (goalI, goalJ) := GoalPosition(val);
    cost := Abs(goalI - i) + Abs(goalJ - j);
    if goalI == i {
      var extra := RowPenalty(puzzle, i, j, goalJ);
      cost := cost + extra;
    }
    if goalJ == j {
      var extra := ColumnPenalty(puzzle, i, j, goalI);
      cost := cost + extra;
    }
  }

  /** endpoints.py's and solve.py's `manhattan_linear_conflict`. */
  method ManhattanLinearConflict(puzzle: Grid) returns (dist: nat)
    requires InRange(puzzle)
    ensures dist == Estimate(puzzle)
  {
    dist := 0;
    for i := 0 to 4
      invariant dist == RowsCost(puzzle, i)
    {
      for j := 0 to 4
        invariant dist == RowsCost(puzzle, i) + RowCost(puzzle, i, j)
      {
        var cost := TileCost(puzzle, i, j);
        dist := dist + cost;
      }
    }
  }

  /** A row sum is 0 exactly when each of its cells costs 0. */
  lemma {:induction false} RowCostZero(g: Grid, i: int, j: int)
    requires InRange(g) && 0 <= i < 4 && 0 <= j <= 4
    ensures RowCost(g, i, j) == 0 <==> forall l :: 0 <= l < j ==> CellCost(g, i, l) == 0
  {
    if j > 0 {
      RowCostZero(g, i, j - 1);
    }
  }

  /** The sum over rows is 0 exactly when each of their cells costs 0. */
  lemma {:induction false} RowsCostZero(g: Grid, i: int)
    requires InRange(g) && 0 <= i <= 4
    ensures RowsCost(g, i) == 0 <==> forall k, l :: 0 <= k < i && 0 <= l < 4 ==> CellCost(g, k, l) == 0
  {
    if i > 0 {
      RowsCostZero(g, i - 1);
      RowCostZero(g, i - 1, 4);
    }
  }

  /** No tile right of (i, j) conflicts: the row count is 0. */
  lemma {:induction false} NoRowConflicts(g: Grid, i: int, j: int, gj: int, k: int)
    requires InRange(g) && InGrid(i, j) && j + 1 <= k <= 4
    requires forall l :: j < l < k ==> !RowConflictAt(g, i, l, gj)
    ensures RowConflicts(g, i, j, gj, k) == 0
    decreases k
  {
    if k > j + 1 {
      NoRowConflicts(g, i, j, gj, k - 1);
    }
  }

  /** No tile below (i, j) conflicts: the column count is 0. */
  lemma {:induction false} NoColConflicts(g: Grid, i: int, j: int, gi: int, k: int)
    requires InRange(g) && InGrid(i, j) && i + 1 <= k <= 4
    requires forall l :: i < l < k ==> !ColConflictAt(g, l, j, gi)
    ensures ColConflicts(g, i, j, gi, k) == 0
    decreases k
  {
    if k > i + 1 {
      NoColConflicts(g, i, j, gi, k - 1);
    }
  }

  lemma GoalInRange()
    ensures InRange(Goal)
  {
    GoalIsValid();
    ValidInRange(Goal);
  }

  /** In the goal board the tiles of row i stand in goal-column order. */
  lemma GoalRowInOrder(i: int, j: int)
    requires InGrid(i, j)
    ensures InRange(Goal) && RowConflicts(Goal, i, j, j, 4) == 0
  {
    GoalInRange();
    forall l | j < l < 4
      ensures !RowConflictAt(Goal, i, l, j)
    {
      GoalPositionOfCell(i, l);
    }
    NoRowConflicts(Goal, i, j, j, 4);
  }

  /** In the goal board the tiles of column j stand in goal-row order. */
  lemma GoalColumnInOrder(i: int, j: int)
    requires InGrid(i, j)
    ensures InRange(Goal) && ColConflicts(Goal, i, j, i, 4) == 0
  {
    GoalInRange();
    forall l | i < l < 4
      ensures !ColConflictAt(Goal, l, j, i)
    {
      GoalPositionOfCell(l, j);
    }
    NoColConflicts(Goal, i, j, i, 4);
  }

  /** On the goal board no tile is away from its cell and no pair is reversed. */
  lemma GoalCellCostZero(i: int, j: int)
    requires InGrid(i, j)
    ensures InRange(Goal) && CellCost(Goal, i, j) == 0
  {
    GoalInRange();
    GoalPositionOfCell(i, j);
    GoalRowInOrder(i, j);
    GoalColumnInOrder(i, j);
  }

  /** `manhattan_linear_conflict(goal)` is 0. */
  lemma EstimateGoalZero()
    ensures InRange(Goal) && Estimate(Goal) == 0
  {
    forall k, l | 0 <= k < 4 && 0 <= l < 4
      ensures CellCost(Goal, k, l) == 0
    {
      GoalCellCostZero(k, l);
    }
    RowsCostZero(Goal, 4);
  }

  /** A tile that costs nothing stands on its goal cell. */
  lemma ZeroCostTileHome(g: Grid, i: int, j: int)
    requires InRange(g) && InGrid(i, j) && g[i][j] != 0 && CellCost(g, i, j) == 0
    ensures g[i][j] == Goal[i][j]
  {
    var (gi, gj) := GoalPosition(g[i][j]);
    assert Abs(gi - i) + Abs(gj - j) == 0;
  }

  /** A valid board whose tiles all stand on their goal cells is the goal board. */
  lemma SettledBoardIsGoal(g: Grid)
    requires ValidBoard(g)
    requires forall i, j :: InGrid(i, j) && g[i][j] != 0 ==> g[i][j] == Goal[i][j]
    ensures g == Goal
  {
    // every goal cell other than the last holds its tile
    forall i, j | InGrid(i, j) && (i, j) != (3, 3)
      ensures g[i][j] == Goal[i][j]
    {
      var w := Goal[i][j];
      GoalCell(i, j);
      ValidHasEveryValue(g, w);
      var k, l :| InGrid(k, l) && g[k][l] == w;
      GoalPositionOfCell(i, j);
      GoalPositionOfCell(k, l);
    }
    // so the blank is left for the last cell
    ValidHasEveryValue(g, 0);
    var k, l :| InGrid(k, l) && g[k][l] == 0;
    GoalCell(k, l);
    if (k, l) != (3, 3) {
      assert false;
    }
    GridExt(g, Goal);
  }

  /** A valid board whose estimate is 0 is the goal board. */
  lemma EstimateZeroIsGoal(g: Grid)
    requires ValidBoard(g)
    ensures InRange(g) && (Estimate(g) == 0 ==> g == Goal)
  {
    ValidInRange(g);
    if Estimate(g) == 0 {
      RowsCostZero(g, 4);
      forall i, j | InGrid(i, j) && g[i][j] != 0
        ensures g[i][j] == Goal[i][j]
      {
        ZeroCostTileHome(g, i, j);
      }
      SettledBoardIsGoal(g);
    }
  }

  /**
   * On a valid board the estimate is 0 exactly at the goal, so the search's
   * `f > threshold` test and its `is_goal` test agree on where a path ends.
   */
  lemma EstimateZeroIffGoal(g: Grid)
    requires ValidBoard(g)
    ensures InRange(g) && (Estimate(g) == 0 <==> g == Goal)
  {
    EstimateZeroIsGoal(g);
    EstimateGoalZero();
  }
}
