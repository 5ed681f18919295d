/**
 * The 15-puzzle board: a list of four rows of four integers, 0 standing for
 * the blank; the goal arrangement and the table giving each tile its goal cell.
 */
module Board {

  /** A board as the source holds it: a list of rows. */
  type Grid = seq<seq<int>>

  /** Exactly four rows of exactly four cells each. */
  predicate Shape(g: Grid) {
    |g| == 4 && forall i :: 0 <= i < 4 ==> |g[i]| == 4
  }

  predicate InGrid(i: int, j: int) {
    0 <= i < 4 && 0 <= j < 4
  }

  /** The cells in row-major order (`[num for row in puzzle for num in row]`). */
  function Flatten(g: Grid): (s: seq<int>)
    requires Shape(g)
    ensures |s| == 16
    ensures forall c :: 0 <= c < 16 ==> s[c] == g[c / 4][c % 4]
  {
    g[0] + g[1] + g[2] + g[3]
  }

  /** The values 0, 1, ..., 15 in order (`list(range(16))`). */
  function Range16(): (s: seq<int>)
    ensures |s| == 16 && forall k :: 0 <= k < 16 ==> s[k] == k
  {
    seq(16, k => k)
  }

  /**
   * A well-formed board: 4 rows of 4 values that are exactly 0..15, each once.
   * `sorted(flat) == list(range(16))` holds exactly when the two multisets agree.
   */
  predicate ValidBoard(g: Grid) {
    Shape(g) && multiset(Flatten(g)) == multiset(Range16())
  }

  /** Every cell holds a value that has a goal cell (a key of `goal_positions`). */
  predicate InRange(g: Grid) {
    Shape(g) && forall i, j :: 0 <= i < 4 && 0 <= j < 4 ==> 0 <= g[i][j] < 16
  }

  predicate HasBlank(g: Grid) {
    Shape(g) && exists i, j :: 0 <= i < 4 && 0 <= j < 4 && g[i][j] == 0
  }

  /** The canonical goal arrangement. */
  const Goal: Grid := [[1, 2, 3, 4], [5, 6, 7, 8], [9, 10, 11, 12], [13, 14, 15, 0]]

  /** The goal board cell by cell: tile 4*i+j+1 at (i, j), the blank last. */
  lemma GoalCell(i: int, j: int)
    requires InGrid(i, j)
    ensures Shape(Goal)
    ensures Goal[i][j] == if i == 3 && j == 3 then 0 else 4 * i + j + 1
  {
  }

  /** `is_goal`: the board holds the goal arrangement, cell (i, j) holding what GoalCell says. */
  predicate IsGoal(p: Grid) {
    Shape(p) && forall i, j :: 0 <= i < 4 && 0 <= j < 4 ==> p[i][j] == if i == 3 && j == 3 then 0 else 4 * i + j + 1
  }

  /** The cell-by-cell comparison is exactly equality with the goal board. */
  lemma IsGoalIff(p: Grid)
    ensures IsGoal(p) <==> p == Goal
  {
    forall i, j | InGrid(i, j)
      ensures Goal[i][j] == if i == 3 && j == 3 then 0 else 4 * i + j + 1
    {
      GoalCell(i, j);
    }
    if IsGoal(p) {
      GridExt(p, Goal);
    }
  }

  /**
   * `goal_positions[v]`: the cell where tile v sits in Goal. The table is the
   * inverse of Goal: looking up the value of a goal cell gives that cell back.
   */
  function GoalPosition(v: int): (p: (int, int))
    requires 0 <= v < 16
    ensures InGrid(p.0, p.1) && Goal[p.0][p.1] == v
  {
    if v == 0 then (3, 3) else ((v - 1) / 4, (v - 1) % 4)
  }

  lemma GoalPositionOfCell(i: int, j: int)
    requires InGrid(i, j)
    ensures 0 <= Goal[i][j] < 16 && GoalPosition(Goal[i][j]) == (i, j)
  {
    GoalCell(i, j);
  }

  /** The goal in row-major order: 1, 2, ..., 15, then the blank. */
  lemma FlattenGoal()
    ensures forall c :: 0 <= c < 16 ==> Flatten(Goal)[c] == if c == 15 then 0 else c + 1
  {
    forall c | 0 <= c < 16
      ensures Flatten(Goal)[c] == if c == 15 then 0 else c + 1
    {
      GoalCell(c / 4, c % 4);
    }
  }

  lemma GoalIsValid()
    ensures ValidBoard(Goal)
  {
    var f, rr := Flatten(Goal), Range16();
    FlattenGoal();
    assert f == rr[1..] + [0];
    assert rr == [0] + rr[1..];
    assert multiset(f) == multiset(rr[1..]) + multiset([0]);
  }

  /** Exchange the cells (x, y) and (nx, ny), as the source's tuple assignment does. */
  function SwapCells(g: Grid, x: int, y: int, nx: int, ny: int): (r: Grid)
    requires Shape(g) && InGrid(x, y) && InGrid(nx, ny)
    ensures Shape(r)
    ensures r[x][y] == g[nx][ny] && r[nx][ny] == g[x][y]
    ensures forall i, j :: InGrid(i, j) && (i, j) != (x, y) && (i, j) != (nx, ny) ==> r[i][j] == g[i][j]
  {
    var h := g[x := g[x][y := g[nx][ny]]];
    h[nx := h[nx][ny := g[x][y]]]
  }

  /** Swapping two cells keeps the board a permutation of 0..15. */
  lemma SwapKeepsValid(g: Grid, x: int, y: int, nx: int, ny: int)
    requires Shape(g) && InGrid(x, y) && InGrid(nx, ny)
    ensures ValidBoard(g) ==> ValidBoard(SwapCells(g, x, y, nx, ny))
  {
    var r := SwapCells(g, x, y, nx, ny);
    var s := Flatten(g);
    var p, q := 4 * x + y, 4 * nx + ny;
    assert p / 4 == x && p % 4 == y && q / 4 == nx && q % 4 == ny;
    var t := s[p := s[q]][q := s[p]];
    forall c | 0 <= c < 16
      ensures Flatten(r)[c] == t[c]
    {
      if c != p && c != q {
        assert (c / 4, c % 4) != (x, y) && (c / 4, c % 4) != (nx, ny);
      }
    }
    assert Flatten(r) == t;
  }

  /** Two cells holding the same value on a valid board are the same cell. */
  lemma ValidCellsDistinct(g: Grid, i: int, j: int, k: int, l: int)
    requires ValidBoard(g) && InGrid(i, j) && InGrid(k, l) && g[i][j] == g[k][l]
    ensures i == k && j == l
  {
    var s := Flatten(g);
    var p, q := 4 * i + j, 4 * k + l;
    assert p / 4 == i && p % 4 == j && q / 4 == k && q % 4 == l;
    assert s[p] == g[i][j] && s[q] == g[k][l];
    RangeCountAtMostOne(s[p]);
    if p != q {
      TwoPositionsCount(s, p, q);
      assert false;
    }
  }

  /** Each value occurs at most once in 0..15. */
  lemma RangeCountAtMostOne(v: int)
    ensures multiset(Range16())[v] <= 1
  {
    var rr := Range16();
    if 0 <= v < 16 {
      assert rr == rr[..v] + [v] + rr[v + 1..];
      assert v !in rr[..v] && v !in rr[v + 1..];
      assert multiset(rr) == multiset(rr[..v]) + multiset([v]) + multiset(rr[v + 1..]);
    } else {
      assert v !in rr;
    }
  }

  /** A value found at two different indices is counted at least twice. */
  lemma TwoPositionsCount(s: seq<int>, p: int, q: int)
    requires 0 <= p < |s| && 0 <= q < |s| && p != q && s[p] == s[q]
    ensures multiset(s)[s[p]] >= 2
  {
    var a, b := if p < q then p else q, if p < q then q else p;
    assert s == s[..a] + [s[a]] + s[a + 1..b] + [s[b]] + s[b + 1..];
    assert multiset(s) == multiset(s[..a]) + multiset([s[a]]) + multiset(s[a + 1..b])
                          + multiset([s[b]]) + multiset(s[b + 1..]);
  }

  /** Every cell of a valid board holds one of 0..15. */
  lemma ValidInRange(g: Grid)
    requires ValidBoard(g)
    ensures InRange(g)
  {
    forall i, j | InGrid(i, j)
      ensures 0 <= g[i][j] < 16
    {
      var c := 4 * i + j;
      assert c / 4 == i && c % 4 == j;
      assert Flatten(g)[c] in multiset(Range16());
    }
  }

  /** Every value 0..15 sits in some cell of a valid board. */
  lemma ValidHasEveryValue(g: Grid, v: int)
    requires ValidBoard(g) && 0 <= v < 16
    ensures exists i, j :: InGrid(i, j) && g[i][j] == v
  {
    assert Range16()[v] == v;
    assert v in multiset(Flatten(g));
    var c :| 0 <= c < 16 && Flatten(g)[c] == v;
    assert InGrid(c / 4, c % 4) && g[c / 4][c % 4] == v;
  }

  /** A valid board has a blank. */
  lemma ValidHasBlank(g: Grid)
    requires ValidBoard(g)
    ensures HasBlank(g)
  {
    ValidHasEveryValue(g, 0);
  }

  /** The blank of a valid board: the one cell holding 0. */
  ghost function Blank(g: Grid): (p: (int, int))
    requires ValidBoard(g)
    ensures InGrid(p.0, p.1) && g[p.0][p.1] == 0
    ensures forall i, j :: InGrid(i, j) && g[i][j] == 0 ==> (i, j) == p
  {
    ValidHasEveryValue(g, 0);
    var i, j :| InGrid(i, j) && g[i][j] == 0;
    forall k, l | InGrid(k, l) && g[k][l] == 0
      ensures (k, l) == (i, j)
    {
      ValidCellsDistinct(g, i, j, k, l);
    }
    (i, j)
  }

  /** Two boards agreeing on every cell are equal. */
  lemma GridExt(a: Grid, b: Grid)
    requires Shape(a) && Shape(b)
    requires forall i, j :: InGrid(i, j) ==> a[i][j] == b[i][j]
    ensures a == b
  {
    forall i | 0 <= i < 4
      ensures a[i] == b[i]
    {
      assert forall j :: 0 <= j < 4 ==> a[i][j] == b[i][j];
    }
  }
}
