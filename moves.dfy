/**
 * Moving the blank: the four directions, the neighbour generator `get_neighbors`
 * (both variants) and the in-place `apply_move`.
 */
module Moves {
  import opened Board

  /** A direction the blank can travel: row offset, column offset and label. */
  datatype Direction = Direction(dx: int, dy: int, name: string)

  /** The directions in the order `get_neighbors` tries them. */
  const Directions: seq<Direction> :=
    [Direction(-1, 0, "up"), Direction(1, 0, "down"), Direction(0, -1, "left"), Direction(0, 1, "right")]

  /** One entry of the list `get_neighbors` returns: a new board and its move label. */
  type Neighbor = (Grid, string)

  function Labels(ns: seq<Neighbor>): (ls: seq<string>)
    ensures |ls| == |ns| && forall k :: 0 <= k < |ns| ==> ls[k] == ns[k].1
  {
    seq(|ns|, k requires 0 <= k < |ns| => ns[k].1)
  }

  /** The neighbour made by direction d from a blank at (x, y), if the target is on the grid. */
  function Step(g: Grid, x: int, y: int, d: Direction): seq<Neighbor>
    requires Shape(g) && InGrid(x, y)
  {
    if InGrid(x + d.dx, y + d.dy) then [(SwapCells(g, x, y, x + d.dx, y + d.dy), d.name)] else []
  }

  /** The neighbours made by the first n directions, in order. */
  function StepsUpTo(g: Grid, x: int, y: int, n: int): seq<Neighbor>
    requires Shape(g) && InGrid(x, y) && 0 <= n <= 4
  {
    if n == 0 then [] else StepsUpTo(g, x, y, n - 1) + Step(g, x, y, Directions[n - 1])
  }

  /** The neighbours of a board whose blank is at (x, y). */
  function NeighborsAt(g: Grid, x: int, y: int): seq<Neighbor>
    requires Shape(g) && InGrid(x, y)
  {
    StepsUpTo(g, x, y, 4)
  }

  /**
   * What endpoints.py's `get_neighbors` builds from row i: each cell (i, 0),
   * ..., (i, j - 1) holding 0, left to right, appends its neighbours.
   */
  function ScanRow(g: Grid, i: int, j: int): seq<Neighbor>
    requires Shape(g) && 0 <= i < 4 && 0 <= j <= 4
  {
    if j == 0 then []
    else ScanRow(g, i, j - 1) + (if g[i][j - 1] == 0 then NeighborsAt(g, i, j - 1) else [])
  }

  /** The same scan over rows 0, ..., i - 1, top to bottom. */
  function ScanRows(g: Grid, i: int): seq<Neighbor>
    requires Shape(g) && 0 <= i <= 4
  {
    if i == 0 then [] else ScanRows(g, i - 1) + ScanRow(g, i - 1, 4)
  }

  /** One more cell of row i: the scan so far grows by that cell's neighbours if it holds 0. */
  lemma ScanRowsStep(g: Grid, i: int, j: int)
    requires Shape(g) && InGrid(i, j)
    ensures ScanRows(g, i) + ScanRow(g, i, j + 1)
      == ScanRows(g, i) + ScanRow(g, i, j) + (if g[i][j] == 0 then NeighborsAt(g, i, j) else [])
  {
  }

  /** Everything endpoints.py's `get_neighbors` returns: the scan of the whole board. */
  function ScanNeighbors(g: Grid): seq<Neighbor>
    requires Shape(g)
  {
    ScanRows(g, 4)
  }

  /**
   * The cell solve.py's loops leave in (x, y): the last cell in row-major order
   * holding 0.
   */
  function LastZero(g: Grid): (p: (int, int))
    requires HasBlank(g)
    ensures InGrid(p.0, p.1) && g[p.0][p.1] == 0
    ensures forall c :: 4 * p.0 + p.1 < c < 16 ==> Flatten(g)[c] != 0
  {
    BlankHasIndex(g);
    LastZeroBelow(g, 16)
  }

  lemma BlankHasIndex(g: Grid)
    requires HasBlank(g)
    ensures exists d :: 0 <= d < 16 && Flatten(g)[d] == 0
  {
    var i, j :| 0 <= i < 4 && 0 <= j < 4 && g[i][j] == 0;
    assert (4 * i + j) / 4 == i && (4 * i + j) % 4 == j;
    assert Flatten(g)[4 * i + j] == 0;
  }

  /** The last cell before index c holding 0. */
  function LastZeroBelow(g: Grid, c: int): (p: (int, int))
    requires Shape(g) && 0 < c <= 16
    requires exists d :: 0 <= d < c && Flatten(g)[d] == 0
    ensures InGrid(p.0, p.1) && 4 * p.0 + p.1 < c && g[p.0][p.1] == 0
    ensures forall d :: 4 * p.0 + p.1 < d < c ==> Flatten(g)[d] != 0
  {
    if Flatten(g)[c - 1] == 0 then ((c - 1) / 4, (c - 1) % 4) else LastZeroBelow(g, c - 1)
  }

  /** On a valid board the last zero is the blank. */
  lemma LastZeroIsBlank(g: Grid)
    requires ValidBoard(g)
    ensures HasBlank(g) && LastZero(g) == Blank(g)
  {
    var b := Blank(g);
    assert g[b.0][b.1] == 0;
  }

  /** The offsets `apply_move` gives a label; an unknown label moves nothing. */
  function Delta(move: string): (int, int) {
    if move == "up" then (-1, 0)
    else if move == "down" then (1, 0)
    else if move == "left" then (0, -1)
    else if move == "right" then (0, 1)
    else (0, 0)
  }

  /** The board `apply_move(board, move)` leaves behind. */
  function ApplyMoveSpec(g: Grid, move: string): (r: Grid)
    requires HasBlank(g)
    ensures HasBlank(r)
    ensures ValidBoard(g) ==> ValidBoard(r)
  {
    var (x, y) := LastZero(g);
    var (nx, ny) := (x + Delta(move).0, y + Delta(move).1);
    if InGrid(nx, ny) then
      var r := SwapCells(g, x, y, nx, ny);
      assert r[nx][ny] == 0;
      SwapKeepsValid(g, x, y, nx, ny);
      r
    else g
  }

  /** `moves` applied one after another from g. */
  function Replay(g: Grid, moves: seq<string>): (r: Grid)
    requires HasBlank(g)
    ensures HasBlank(r)
    ensures ValidBoard(g) ==> ValidBoard(r)
    decreases |moves|
  {
    if moves == [] then g else Replay(ApplyMoveSpec(g, moves[0]), moves[1..])
  }

  lemma CellAt(g: Grid, i: int, j: int)
    requires Shape(g) && InGrid(i, j)
    ensures Flatten(g)[4 * i + j] == g[i][j]
  {
    assert (4 * i + j) / 4 == i && (4 * i + j) % 4 == j;
  }

  /** The label that undoes a move. */
  function Opposite(move: string): string {
    if move == "up" then "down"
    else if move == "down" then "up"
    else if move == "left" then "right"
    else if move == "right" then "left"
    else move
  }

  /** The labels a blank at (x, y) can move to, in the order up, down, left, right. */
  function LegalLabels(x: int, y: int): seq<string> {
    (if x > 0 then ["up"] else []) + (if x < 3 then ["down"] else [])
    + (if y > 0 then ["left"] else []) + (if y < 3 then ["right"] else [])
  }

  /** The neighbour n is the board with the blank at (x, y) moved as n's label says. */
  predicate IsMoveOf(g: Grid, x: int, y: int, n: Neighbor)
    requires Shape(g) && InGrid(x, y)
  {
    InGrid(x + Delta(n.1).0, y + Delta(n.1).1) && n.0 == SwapCells(g, x, y, x + Delta(n.1).0, y + Delta(n.1).1)
  }

  lemma NeighborsAtUnfold(g: Grid, x: int, y: int)
    requires Shape(g) && InGrid(x, y)
    ensures NeighborsAt(g, x, y) == Step(g, x, y, Directions[0]) + Step(g, x, y, Directions[1])
                                    + Step(g, x, y, Directions[2]) + Step(g, x, y, Directions[3])
  {
    var s0, s1, s2, s3 := Step(g, x, y, Directions[0]), Step(g, x, y, Directions[1]),
                          Step(g, x, y, Directions[2]), Step(g, x, y, Directions[3]);
    assert StepsUpTo(g, x, y, 1) == s0;
    assert StepsUpTo(g, x, y, 2) == s0 + s1;
    assert StepsUpTo(g, x, y, 3) == s0 + s1 + s2;
    assert StepsUpTo(g, x, y, 4) == s0 + s1 + s2 + s3;
  }

  /**
   * The neighbours of a blank at (x, y): exactly the on-grid directions, in the
   * order up, down, left, right (2 in a corner, 3 on an edge, 4 inside), each
   * board being the input with the blank and the cell the label's offsets
   * point at exchanged.
   */
  lemma NeighborsAtSpec(g: Grid, x: int, y: int)
    requires Shape(g) && InGrid(x, y)
    ensures Labels(NeighborsAt(g, x, y)) == LegalLabels(x, y)
    ensures |NeighborsAt(g, x, y)| ==
      if (x == 0 || x == 3) && (y == 0 || y == 3) then 2
      else if x == 0 || x == 3 || y == 0 || y == 3 then 3
      else 4
    ensures forall k :: 0 <= k < |NeighborsAt(g, x, y)| ==> IsMoveOf(g, x, y, NeighborsAt(g, x, y)[k])
  {
    NeighborsAtLabels(g, x, y);
    NeighborsAtUnfold(g, x, y);
    StepsAreMoves(g, x, y, NeighborsAt(g, x, y));
  }

  /** The labels of a step: the direction's name when its target is on the grid. */
  lemma StepLabels(g: Grid, x: int, y: int, d: Direction)
    requires Shape(g) && InGrid(x, y)
    ensures Labels(Step(g, x, y, d)) == if InGrid(x + d.dx, y + d.dy) then [d.name] else []
  {
  }

  lemma NeighborsAtLabels(g: Grid, x: int, y: int)
    requires Shape(g) && InGrid(x, y)
    ensures Labels(NeighborsAt(g, x, y)) == LegalLabels(x, y)
  {
    NeighborsAtUnfold(g, x, y);
    var s0, s1, s2, s3 := Step(g, x, y, Directions[0]), Step(g, x, y, Directions[1]),
                          Step(g, x, y, Directions[2]), Step(g, x, y, Directions[3]);
    LabelsAppend(s0, s1);
    LabelsAppend(s0 + s1, s2);
    LabelsAppend(s0 + s1 + s2, s3);
    assert Labels(NeighborsAt(g, x, y)) == Labels(s0) + Labels(s1) + Labels(s2) + Labels(s3);
    StepLabels(g, x, y, Directions[0]);
    StepLabels(g, x, y, Directions[1]);
    StepLabels(g, x, y, Directions[2]);
    StepLabels(g, x, y, Directions[3]);
  }

  lemma LabelsAppend(a: seq<Neighbor>, b: seq<Neighbor>)
    ensures Labels(a + b) == Labels(a) + Labels(b)
  {
  }

  /** Each direction's label maps back to its offsets under `apply_move`'s table. */
  lemma DirectionDelta(k: int)
    requires 0 <= k < 4
    ensures Delta(Directions[k].name) == (Directions[k].dx, Directions[k].dy)
  {
  }

  /** The step in direction k, if any, is the move its label names. */
  lemma StepIsMoveOf(g: Grid, x: int, y: int, k: int)
    requires Shape(g) && InGrid(x, y) && 0 <= k < 4
    ensures forall n :: n in Step(g, x, y, Directions[k]) ==> IsMoveOf(g, x, y, n)
  {
    DirectionDelta(k);
  }

  lemma StepsAreMoves(g: Grid, x: int, y: int, r: seq<Neighbor>)
    requires Shape(g) && InGrid(x, y)
    requires r == Step(g, x, y, Directions[0]) + Step(g, x, y, Directions[1])
                  + Step(g, x, y, Directions[2]) + Step(g, x, y, Directions[3])
    ensures forall k :: 0 <= k < |r| ==> IsMoveOf(g, x, y, r[k])
  {
    StepIsMoveOf(g, x, y, 0);
    StepIsMoveOf(g, x, y, 1);
    StepIsMoveOf(g, x, y, 2);
    StepIsMoveOf(g, x, y, 3);
    forall k | 0 <= k < |r|
      ensures IsMoveOf(g, x, y, r[k])
    {
      assert r[k] in r;
    }
  }

  /**
   * Scanning the first j cells of row i of a board with a single zero, at
   * (b0, b1), finds that cell's neighbours once the scan has passed it.
   */
  lemma {:induction false} ScanRowSingleZero(g: Grid, b0: int, b1: int, i: int, j: int)
    requires Shape(g) && InGrid(b0, b1) && g[b0][b1] == 0 && 0 <= i < 4 && 0 <= j <= 4
    requires forall k, l :: InGrid(k, l) && g[k][l] == 0 ==> (k, l) == (b0, b1)
    ensures ScanRow(g, i, j) == if i == b0 && b1 < j then NeighborsAt(g, b0, b1) else []
  {
    if j > 0 {
      ScanRowSingleZero(g, b0, b1, i, j - 1);
      if g[i][j - 1] == 0 {
        assert (i, j - 1) == (b0, b1);
        assert ScanRow(g, i, j) == [] + NeighborsAt(g, b0, b1);
      } else {
        assert ScanRow(g, i, j) == ScanRow(g, i, j - 1) + [];
      }
    }
  }

  /** The same over the first i rows. */
  lemma {:induction false} ScanRowsSingleZero(g: Grid, b0: int, b1: int, i: int)
    requires Shape(g) && InGrid(b0, b1) && g[b0][b1] == 0 && 0 <= i <= 4
    requires forall k, l :: InGrid(k, l) && g[k][l] == 0 ==> (k, l) == (b0, b1)
    ensures ScanRows(g, i) == if b0 < i then NeighborsAt(g, b0, b1) else []
  {
    if i > 0 {
      ScanRowsSingleZero(g, b0, b1, i - 1);
      ScanRowSingleZero(g, b0, b1, i - 1, 4);
      if i - 1 == b0 {
        assert ScanRows(g, i) == [] + NeighborsAt(g, b0, b1);
      } else {
        assert ScanRows(g, i) == ScanRows(g, i - 1) + [];
      }
    }
  }

  /** On a valid board, scanning every cell finds only the blank's neighbours. */
  lemma ScanFindsBlank(g: Grid)
    requires ValidBoard(g)
    ensures ScanNeighbors(g) == NeighborsAt(g, Blank(g).0, Blank(g).1)
  {
    var (b0, b1) := Blank(g);
    ScanRowsSingleZero(g, b0, b1, 4);
  }

  /**
   * On a valid board `get_neighbors` yields the blank's neighbours, in the order
   * up, down, left, right, each a valid board and each what `apply_move` makes
   * of the board with its label.
   */
  lemma ValidScan(g: Grid)
    requires ValidBoard(g)
    ensures var ns := ScanNeighbors(g);
      && ns == NeighborsAt(g, Blank(g).0, Blank(g).1)
      && Labels(ns) == LegalLabels(Blank(g).0, Blank(g).1)
      && forall k :: 0 <= k < |ns| ==> ValidBoard(ns[k].0) && ns[k].0 == ApplyMoveSpec(g, ns[k].1)
  {
    ScanFindsBlank(g);
    LastZeroIsBlank(g);
    NeighborsAtSpec(g, Blank(g).0, Blank(g).1);
    NeighborIsApplyMove(g);
  }

  /**
   * On a valid board the two generators agree: solve.py's, which moves the
   * last 0 it finds, lists exactly what endpoints.py's full scan lists.
   */
  lemma GeneratorsAgree(g: Grid)
    requires ValidBoard(g)
    ensures HasBlank(g) && NeighborsAt(g, LastZero(g).0, LastZero(g).1) == ScanNeighbors(g)
  {
    ValidScan(g);
    LastZeroIsBlank(g);
  }

  /**
   * Each neighbour of a board is what `apply_move` makes of the board with the
   * neighbour's label: both use the same offsets.
   */
  lemma NeighborIsApplyMove(g: Grid)
    requires HasBlank(g)
    ensures forall k :: 0 <= k < |NeighborsAt(g, LastZero(g).0, LastZero(g).1)| ==>
      var (nb, m) := NeighborsAt(g, LastZero(g).0, LastZero(g).1)[k];
      nb == ApplyMoveSpec(g, m)
  {
    NeighborsAtSpec(g, LastZero(g).0, LastZero(g).1);
  }

  /**
   * On a valid board, a move whose target cell is on the grid exchanges the
   * blank with that cell, which then holds the blank.
   */
  lemma ApplyMoveSwaps(g: Grid, move: string)
    requires ValidBoard(g)
    requires InGrid(Blank(g).0 + Delta(move).0, Blank(g).1 + Delta(move).1)
    ensures ValidBoard(ApplyMoveSpec(g, move))
    ensures ApplyMoveSpec(g, move)
      == SwapCells(g, Blank(g).0, Blank(g).1, Blank(g).0 + Delta(move).0, Blank(g).1 + Delta(move).1)
    ensures Blank(ApplyMoveSpec(g, move)) == (Blank(g).0 + Delta(move).0, Blank(g).1 + Delta(move).1)
  {
    LastZeroIsBlank(g);
    var (x, y) := Blank(g);
    var (nx, ny) := (x + Delta(move).0, y + Delta(move).1);
    var r := SwapCells(g, x, y, nx, ny);
    assert ApplyMoveSpec(g, move) == r;
    assert r[nx][ny] == 0;
  }

  /** A legal move followed by its opposite gives the board back. */
  lemma ApplyMoveUndo(g: Grid, move: string)
    requires ValidBoard(g) && move in ["up", "down", "left", "right"]
    requires InGrid(Blank(g).0 + Delta(move).0, Blank(g).1 + Delta(move).1)
    ensures ApplyMoveSpec(ApplyMoveSpec(g, move), Opposite(move)) == g
  {
    var (x, y) := Blank(g);
    var (nx, ny) := (x + Delta(move).0, y + Delta(move).1);
    ApplyMoveSwaps(g, move);
    var r := ApplyMoveSpec(g, move);
    OppositeDelta(move);
    ApplyMoveSwaps(r, Opposite(move));
    var back := SwapCells(r, nx, ny, x, y);
    assert ApplyMoveSpec(r, Opposite(move)) == back;
    forall i, j | InGrid(i, j)
      ensures back[i][j] == g[i][j]
    {
      if (i, j) != (x, y) && (i, j) != (nx, ny) {
        assert back[i][j] == r[i][j];
      }
    }
    GridExt(back, g);
  }

  lemma OppositeDelta(move: string)
    requires move in ["up", "down", "left", "right"]
    ensures Delta(Opposite(move)).0 == -Delta(move).0 && Delta(Opposite(move)).1 == -Delta(move).1
  {
  }

  /**
   * `apply_move` changes nothing when the target cell is off the grid or the
   * label is none of up, down, left and right.
   */
  lemma ApplyMoveNoop(g: Grid, move: string)
    requires HasBlank(g)
    requires move !in ["up", "down", "left", "right"]
          || !InGrid(LastZero(g).0 + Delta(move).0, LastZero(g).1 + Delta(move).1)
    ensures ApplyMoveSpec(g, move) == g
  {
    var (x, y) := LastZero(g);
    if move !in ["up", "down", "left", "right"] {
      assert Delta(move) == (0, 0);
      GridExt(SwapCells(g, x, y, x, y), g);
    }
  }

  /** The `for dx, dy, move in directions` loop of both `get_neighbors`. */
  method DirectionSteps(board: Grid, x: int, y: int) returns (steps: seq<Neighbor>)
    requires Shape(board) && InGrid(x, y)
    ensures steps == NeighborsAt(board, x, y)
  {
    steps := [];
    for k := 0 to 4
      invariant steps == StepsUpTo(board, x, y, k)
    {
      var d := Directions[k];
      assert StepsUpTo(board, x, y, k + 1) == StepsUpTo(board, x, y, k) + Step(board, x, y, d);
      var nx, ny := x + d.dx, y + d.dy;
      if 0 <= nx < 4 && 0 <= ny < 4 {
        var newBoard := SwapCells(board, x, y, nx, ny);
        steps := steps + [(newBoard, d.name)];
      }
    }
  }

  /**
   * endpoints.py's `get_neighbors`: every cell holding 0, in row-major order,
   * contributes its neighbours (ValidScan says what that is on a valid board).
   */
  method GetNeighbors(board: Grid) returns (neighbors: seq<Neighbor>)
    requires Shape(board)
    ensures neighbors == ScanNeighbors(board)
  {
    neighbors := [];
    for i := 0 to 4
      invariant neighbors == ScanRows(board, i)
    {
      for j := 0 to 4
        invariant neighbors == ScanRows(board, i) + ScanRow(board, i, j)
      {
        ScanRowsStep(board, i, j);
        if board[i][j] == 0 {
          var steps := DirectionSteps(board, i, j);
          neighbors := neighbors + steps;
        }
      }
    }
  }

  /**
   * solve.py's `get_neighbors`: the neighbours of the last cell holding 0
   * (the source fails on a board without one).
   */
  method GetNeighborsLastBlank(board: Grid) returns (neighbors: seq<Neighbor>)
    requires HasBlank(board)
    ensures neighbors == NeighborsAt(board, LastZero(board).0, LastZero(board).1)
    ensures forall k :: 0 <= k < |neighbors| ==> neighbors[k].0 == ApplyMoveSpec(board, neighbors[k].1)
  {
    var x, y := 0, 0;
    ghost var found := false;
    for i := 0 to 4
      invariant ScannedUpTo(board, 4 * i, found, x, y)
    {
      for j := 0 to 4
        invariant ScannedUpTo(board, 4 * i + j, found, x, y)
      {
        ScanCellStep(board, i, j, found, x, y);
        if board[i][j] == 0 {
          x, y, found := i, j, true;
        }
      }
    }
    ScanEnd(board, found, x, y);
    neighbors := DirectionSteps(board, x, y);
    NeighborIsApplyMove(board);
  }

  /**
   * What the scan of solve.py knows after the first c cells in row-major
   * order: if it has met a 0, (x, y) is the last 0 so far; if not, none of
   * those cells holds 0.
   */
  ghost predicate ScannedUpTo(g: Grid, c: int, found: bool, x: int, y: int)
    requires Shape(g) && 0 <= c <= 16
  {
    && (found ==> InGrid(x, y) && 4 * x + y < c && g[x][y] == 0)
    && (found ==> forall d :: 4 * x + y < d < c ==> Flatten(g)[d] != 0)
    && (!found ==> forall d :: 0 <= d < c ==> Flatten(g)[d] != 0)
  }

  /** Scanning cell (i, j) moves (x, y) to it if it holds 0, and otherwise keeps it. */
  lemma ScanCellStep(g: Grid, i: int, j: int, found: bool, x: int, y: int)
    requires Shape(g) && InGrid(i, j) && ScannedUpTo(g, 4 * i + j, found, x, y)
    ensures g[i][j] == 0 ==> ScannedUpTo(g, 4 * i + j + 1, true, i, j)
    ensures g[i][j] != 0 ==> ScannedUpTo(g, 4 * i + j + 1, found, x, y)
  {
    CellAt(g, i, j);
  }

  /** At the end of the scan (x, y) is the last 0 of the board. */
  lemma ScanEnd(g: Grid, found: bool, x: int, y: int)
    requires HasBlank(g) && ScannedUpTo(g, 16, found, x, y)
    ensures (x, y) == LastZero(g)
  {
    BlankHasIndex(g);
    SameLastZero(g, x, y);
  }

  /** A zero cell with no zero after it is LastZero. */
  lemma SameLastZero(g: Grid, x: int, y: int)
    requires HasBlank(g) && InGrid(x, y) && g[x][y] == 0
    requires forall d :: 4 * x + y < d < 16 ==> Flatten(g)[d] != 0
    ensures (x, y) == LastZero(g)
  {
    var p := LastZero(g);
    CellAt(g, x, y);
    CellAt(g, p.0, p.1);
    assert 4 * x + y == 4 * p.0 + p.1;
  }

  /** The rows of a 4x4 array as a board value. */
  function Snapshot(a: array2<int>): (g: Grid)
    requires a.Length0 == 4 && a.Length1 == 4
    reads a
    ensures Shape(g) && forall i, j :: InGrid(i, j) ==> g[i][j] == a[i, j]
  {
    seq(4, i reads a requires 0 <= i < 4 => seq(4, j reads a requires 0 <= j < 4 => a[i, j]))
  }

  /** The scan at the head of `apply_move`: the last cell of the array holding 0. */
  method LastBlankCell(board: array2<int>) returns (x: int, y: int)
    requires board.Length0 == 4 && board.Length1 == 4
    requires exists i, j :: 0 <= i < 4 && 0 <= j < 4 && board[i, j] == 0
    ensures HasBlank(Snapshot(board)) && (x, y) == LastZero(Snapshot(board))
  {
    ghost var g := Snapshot(board);
    assert HasBlank(g);
    x, y := 0, 0;
    ghost var found := false;
    for i := 0 to 4
      invariant ScannedUpTo(g, 4 * i, found, x, y)
    {
      for j := 0 to 4
        invariant ScannedUpTo(g, 4 * i + j, found, x, y)
      {
        ScanCellStep(g, i, j, found, x, y);
        if board[i, j] == 0 {
          x, y, found := i, j, true;
        }
      }
    }
    ScanEnd(g, found, x, y);
  }

  /** ApplyMoveSpec once the blank is known to be at (x, y). */
  lemma ApplyMoveAt(g: Grid, move: string, x: int, y: int)
    requires HasBlank(g) && (x, y) == LastZero(g)
    ensures ApplyMoveSpec(g, move) ==
      if InGrid(x + Delta(move).0, y + Delta(move).1)
      then SwapCells(g, x, y, x + Delta(move).0, y + Delta(move).1)
      else g
  {
  }

  /** `board[x][y], board[nx][ny] = board[nx][ny], board[x][y]` on the array itself. */
  method SwapInPlace(board: array2<int>, x: int, y: int, nx: int, ny: int)
    requires board.Length0 == 4 && board.Length1 == 4 && InGrid(x, y) && InGrid(nx, ny)
    modifies board
    ensures Snapshot(board) == SwapCells(old(Snapshot(board)), x, y, nx, ny)
  {
    ghost var g := Snapshot(board);
    board[x, y], board[nx, ny] := board[nx, ny], board[x, y];
    ghost var swapped := SwapCells(g, x, y, nx, ny);
    forall i, j | InGrid(i, j)
      ensures Snapshot(board)[i][j] == swapped[i][j]
    {
      if (i, j) == (x, y) {
        assert board[i, j] == g[nx][ny];
      } else if (i, j) == (nx, ny) {
        assert board[i, j] == g[x][y];
      } else {
        assert board[i, j] == old(board[i, j]) == g[i][j];
      }
    }
    GridExt(Snapshot(board), swapped);
  }

  /** The if-chain of `apply_move` that turns a label into row and column offsets. */
  method MoveOffsets(move: string) returns (dx: int, dy: int)
    ensures (dx, dy) == Delta(move)
  {
    dx, dy := 0, 0;
    if move == "up" {
      dx := -1;
    } else if move == "down" {
      dx := 1;
    } else if move == "left" {
      dy := -1;
    } else if move == "right" {
      dy := 1;
    }
  }

  /**
   * solve.py's `apply_move`: slides the blank (the last cell holding 0) one
   * cell in the labelled direction, on the board it is given, and returns that
   * same board. Off-grid targets and unknown labels change nothing.
   */
  method ApplyMove(board: array2<int>, move: string) returns (r: array2<int>)
    requires board.Length0 == 4 && board.Length1 == 4
    requires exists i, j :: 0 <= i < 4 && 0 <= j < 4 && board[i, j] == 0
    modifies board
    ensures r == board
    ensures HasBlank(old(Snapshot(board))) && Snapshot(board) == ApplyMoveSpec(old(Snapshot(board)), move)
  {
    ghost var g := Snapshot(board);
    var x, y := LastBlankCell(board);
    var dx, dy := MoveOffsets(move);
    ApplyMoveAt(g, move, x, y);
    ghost var moved := ApplyMoveSpec(g, move);
    var nx, ny := x + dx, y + dy;
    assert nx == x + Delta(move).0 && ny == y + Delta(move).1;
    if 0 <= nx < 4 && 0 <= ny < 4 {
      assert InGrid(nx, ny);
      SwapInPlace(board, x, y, nx, ny);
      assert moved == SwapCells(g, x, y, nx, ny);
    } else {
      assert moved == g;
    }
    assert Snapshot(board) == moved;
    r := board;
  }
}
