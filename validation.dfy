/**
 * The checks `api_solve` runs on a submitted puzzle before solving it: four
 * rows of four integers, the values 0..15 each once, and the inversion-parity
 * solvability test; then the solve itself and its error replies.
 */
module Validation {
  import opened Wrappers
  import opened Board
  import opened Moves
  import opened Search

  /**
   * One non-empty input line after `int` has been applied to its fields:
   * the numbers, or a field `int` rejects (the `ValueError` handler).
   */
  datatype Line = Numbers(values: seq<int>) | Unparsable

  /** The error replies of `api_solve`, one per failed check. */
  datatype Rejection =
    | WrongRowCount
    | WrongRowLength
    | BadNumber
    | NotPermutation
    | Unsolvable
    | NoSolution

  /** The text `api_solve` sends back for each rejection. */
  function Message(e: Rejection): string {
    match e
    case WrongRowCount => "Puzzle must have exactly 4 rows."
    case WrongRowLength => "Each row must have exactly 4 numbers."
    case BadNumber => "Invalid input format. Please enter numbers only."
    case NotPermutation => "Puzzle must contain all numbers from 0 to 15 exactly once."
    case Unsolvable =>
      "This puzzle configuration is not solvable. Exactly half of all possible 15-puzzle configurations are unsolvable."
    case NoSolution => "No solution found within reasonable time. The puzzle may be too complex."
  }

  /**
   * The first problem met when the lines are converted one after another:
   * a line `int` rejects, or a line without exactly four numbers.
   */
  function FirstLineError(ls: seq<Line>): Option<Rejection> {
    if |ls| == 0 then None
    else match ls[0]
      case Unparsable => Some(BadNumber)
      case Numbers(v) => if |v| != 4 then Some(WrongRowLength) else FirstLineError(ls[1..])
  }

  /** A line holding exactly four numbers. */
  predicate GoodLine(l: Line) {
    l.Numbers? && |l.values| == 4
  }

  /** No line fails exactly when every line is four numbers. */
  lemma {:induction false} FirstLineErrorNone(ls: seq<Line>)
    ensures FirstLineError(ls) == None <==> forall k :: 0 <= k < |ls| ==> GoodLine(ls[k])
    decreases |ls|
  {
    if |ls| > 0 {
      FirstLineErrorNone(ls[1..]);
      assert forall k :: 1 <= k < |ls| ==> ls[k] == ls[1..][k - 1];
    }
  }

  /** Four lines of four numbers each. */
  predicate WellFormed(ls: seq<Line>) {
    |ls| == 4 && forall k :: 0 <= k < 4 ==> GoodLine(ls[k])
  }

  /** The board `api_solve` builds from well-formed lines. */
  function Rows(ls: seq<Line>): (g: Grid)
    requires WellFormed(ls)
    ensures Shape(g) && forall k :: 0 <= k < 4 ==> g[k] == ls[k].values
  {
    seq(4, k requires 0 <= k < 4 => ls[k].values)
  }

  /**
   * The row loop of `api_solve`: exactly four lines, each converted with
   * `int` and checked for four numbers, in order.
   */
  method ParseRows(lines: seq<Line>) returns (r: Result<Grid, Rejection>)
    ensures |lines| != 4 ==> r == Failure(WrongRowCount)
    ensures |lines| == 4 && FirstLineError(lines).Some? ==> r == Failure(FirstLineError(lines).value)
    ensures r.Success? <==> WellFormed(lines)
    ensures r.Success? ==> WellFormed(lines) && r.value == Rows(lines)
    ensures r.Failure? ==> r.error == WrongRowCount || r.error == WrongRowLength || r.error == BadNumber
  {
    FirstLineErrorNone(lines);
    if |lines| != 4 {
      return Failure(WrongRowCount);
    }
    var puzzle: Grid := [];
    for k := 0 to 4
      invariant |puzzle| == k
      invariant forall m :: 0 <= m < k ==> GoodLine(lines[m]) && puzzle[m] == lines[m].values
      invariant FirstLineError(lines) == FirstLineError(lines[k..])
    {
      assert lines[k..][1..] == lines[k + 1..];
      match lines[k]
      case Unparsable =>
        return Failure(BadNumber);
      case Numbers(row) =>
        if |row| != 4 {
          return Failure(WrongRowLength);
        }
        puzzle := puzzle + [row];
    }
    assert puzzle == Rows(lines);
    return Success(puzzle);
  }

  /** `[x for x in flat if x != 0]`. */
  function NonBlank(s: seq<int>): (r: seq<int>)
    ensures 0 !in r && |r| <= |s|
  {
    if |s| == 0 then [] else (if s[0] == 0 then [] else [s[0]]) + NonBlank(s[1..])
  }

  /** The filter keeps every non-zero value as often as it occurs, and drops every 0. */
  lemma {:induction false} NonBlankCounts(s: seq<int>)
    ensures multiset(NonBlank(s)) == multiset(s)[0 := 0]
    decreases |s|
  {
    if |s| > 0 {
      NonBlankCounts(s[1..]);
      assert s == [s[0]] + s[1..];
    }
  }

  /** How many of s[i+1..j] are smaller than s[i]: the inner loop's count for i. */
  function Exceeding(s: seq<int>, i: nat, j: nat): nat
    requires i < |s| && j <= |s|
    decreases j
  {
    if j <= i + 1 then 0 else Exceeding(s, i, j - 1) + (if s[i] > s[j - 1] then 1 else 0)
  }

  /** The inversions whose first index lies below i. */
  function InversionsBefore(s: seq<int>, i: nat): nat
    requires i <= |s|
  {
    if i == 0 then 0 else InversionsBefore(s, i - 1) + Exceeding(s, i - 1, |s|)
  }

  /** The number of index pairs a < b with s[a] > s[b]. */
  function Inversions(s: seq<int>): nat {
    InversionsBefore(s, |s|)
  }

  /** No inner-loop count for i exactly when s[i] is at most every later entry up to j. */
  lemma {:induction false} ExceedingZero(s: seq<int>, i: nat, j: nat)
    requires i < |s| && j <= |s|
    ensures Exceeding(s, i, j) == 0 <==> forall k :: i < k < j ==> s[i] <= s[k]
    decreases j
  {
    if j > i + 1 {
      ExceedingZero(s, i, j - 1);
    }
  }

  /** No inversion starts below i exactly when each s[a], a < i, is at most every later entry. */
  lemma {:induction false} InversionsBeforeZero(s: seq<int>, i: nat)
    requires i <= |s|
    ensures InversionsBefore(s, i) == 0 <==> forall a, k :: 0 <= a < i && a < k < |s| ==> s[a] <= s[k]
  {
    if i > 0 {
      InversionsBeforeZero(s, i - 1);
      ExceedingZero(s, i - 1, |s|);
    }
  }

  /** A sequence has no inversions exactly when it is sorted. */
  lemma InversionsZeroIffSorted(s: seq<int>)
    ensures Inversions(s) == 0 <==> forall a, b :: 0 <= a < b < |s| ==> s[a] <= s[b]
  {
    InversionsBeforeZero(s, |s|);
  }

  /** The nested loops of `api_solve` that count inversions. */
  method CountInversions(s: seq<int>) returns (inversions: nat)
    ensures inversions == Inversions(s)
  {
    inversions := 0;
    for i := 0 to |s|
      invariant inversions == InversionsBefore(s, i)
    {
      for j := i + 1 to |s|
        invariant inversions == InversionsBefore(s, i) + Exceeding(s, i, j)
      {
        if s[i] > s[j] {
          inversions := inversions + 1;
        }
      }
    }
  }

  /** The row of the first row holding 0, counted from the bottom as 1; 0 when none does. */
  function EmptyRowFrom(g: Grid, i: nat): (r: nat)
    requires Shape(g) && i <= 4
    ensures r <= 4
    decreases 4 - i
  {
    if i == 4 then 0 else if 0 in g[i] then 4 - i else EmptyRowFrom(g, i + 1)
  }

  /** On a valid board the row found is the blank's row, counted from the bottom. */
  lemma {:induction false} EmptyRowIsBlankRow(g: Grid, i: nat)
    requires ValidBoard(g) && i <= Blank(g).0
    ensures EmptyRowFrom(g, i) == 4 - Blank(g).0
    decreases 4 - i
  {
    var b := Blank(g);
    if i < b.0 {
      if 0 in g[i] {
        var j :| 0 <= j < 4 && g[i][j] == 0;
        assert InGrid(i, j);
        assert false;
      }
      EmptyRowIsBlankRow(g, i + 1);
    } else {
      assert g[i][b.1] == 0;
    }
  }

  /** The loop of `api_solve` that finds the blank's row from the bottom. */
  method EmptyRow(puzzle: Grid) returns (emptyRow: nat)
    requires Shape(puzzle)
    ensures emptyRow == EmptyRowFrom(puzzle, 0)
  {
    emptyRow := 0;
    for i := 0 to 4
      invariant EmptyRowFrom(puzzle, 0) == EmptyRowFrom(puzzle, i)
    {
      if 0 in puzzle[i] {
        emptyRow := 4 - i;
        return;
      }
    }
  }

  /**
   * The parity test: inversions among the non-blank values in row-major order,
   * plus the blank's row counted from the bottom, is odd.
   */
  predicate Solvable(g: Grid)
    requires Shape(g)
  {
    (Inversions(NonBlank(Flatten(g))) + EmptyRowFrom(g, 0)) % 2 == 1
  }

  /** On a valid board the test uses the blank's row, 4 minus its index. */
  lemma SolvableValid(g: Grid)
    requires ValidBoard(g)
    ensures Solvable(g) <==> (Inversions(NonBlank(Flatten(g))) + 4 - Blank(g).0) % 2 == 1
  {
    EmptyRowIsBlankRow(g, 0);
  }

  /** Filtering distributes over concatenation. */
  lemma {:induction false} NonBlankAppend(a: seq<int>, b: seq<int>)
    ensures NonBlank(a + b) == NonBlank(a) + NonBlank(b)
    decreases |a|
  {
    if |a| > 0 {
      var h := if a[0] == 0 then [] else [a[0]];
      assert (a + b)[0] == a[0] && (a + b)[1..] == a[1..] + b;
      NonBlankAppend(a[1..], b);
      calc {
        NonBlank(a + b);
        h + NonBlank(a[1..] + b);
        h + (NonBlank(a[1..]) + NonBlank(b));
        (h + NonBlank(a[1..])) + NonBlank(b);
      }
    } else {
      assert a + b == b;
    }
  }

  /** Filtering a sequence without 0 leaves it as it is. */
  lemma {:induction false} NonBlankNoZero(s: seq<int>)
    requires 0 !in s
    ensures NonBlank(s) == s
    decreases |s|
  {
    if |s| > 0 {
      NonBlankNoZero(s[1..]);
    }
  }

  /** The row-major order of a board whose only 0 is its last cell, with the blank dropped. */
  lemma NonBlankLastBlank(g: Grid)
    requires Shape(g) && g[3][3] == 0
    requires forall c :: 0 <= c < 15 ==> Flatten(g)[c] != 0
    ensures NonBlank(Flatten(g)) == Flatten(g)[..15]
  {
    var f := Flatten(g);
    assert f == f[..15] + [0];
    NonBlankAppend(f[..15], [0]);
    NonBlankNoZero(f[..15]);
  }

  /** A board reading 1, 2, ..., 15 in row-major order, blank last, passes the test. */
  lemma InOrderSolvable(g: Grid)
    requires Shape(g) && forall c :: 0 <= c < 16 ==> Flatten(g)[c] == if c == 15 then 0 else c + 1
    ensures Solvable(g)
  {
    var f := Flatten(g);
    assert f[15] == 0;
    NonBlankLastBlank(g);
    var s := NonBlank(f);
    assert forall a, b :: 0 <= a < b < |s| ==> s[a] == a + 1 < b + 1 == s[b];
    InversionsZeroIffSorted(s);
    BottomBlankRow(g);
  }

  /** A board whose first three rows hold no 0 and whose last row does has its blank row 1 from the bottom. */
  lemma BottomBlankRow(g: Grid)
    requires Shape(g) && forall c :: 0 <= c < 16 ==> (Flatten(g)[c] == 0 <==> c == 15)
    ensures EmptyRowFrom(g, 0) == 1
  {
    forall i, j | 0 <= i < 4 && 0 <= j < 4
      ensures g[i][j] == Flatten(g)[4 * i + j]
    {
      assert (4 * i + j) / 4 == i && (4 * i + j) % 4 == j;
    }
    assert 0 !in g[0] && 0 !in g[1] && 0 !in g[2] && g[3][3] == 0;
  }

  /** The goal passes the test: no inversions, blank in the bottom row. */
  lemma GoalSolvable()
    ensures ValidBoard(Goal) && Solvable(Goal)
  {
    GoalIsValid();
    FlattenGoal();
    InOrderSolvable(Goal);
  }

  /** A board reading 1, ..., 13, 15, 14 in row-major order, blank last, fails the test. */
  lemma OneSwapUnsolvable(g: Grid)
    requires Shape(g)
    requires forall c :: 0 <= c < 16 ==>
      Flatten(g)[c] == if c == 13 then 15 else if c == 14 then 14 else if c == 15 then 0 else c + 1
    ensures !Solvable(g)
  {
    var f := Flatten(g);
    assert f[15] == 0;
    NonBlankLastBlank(g);
    var s := NonBlank(f);
    assert |s| == 15 && s[13] == 15 && s[14] == 14;
    InversionsBeforeZero(s, 13);
    assert Exceeding(s, 13, 15) == 1;
    assert InversionsBefore(s, 14) == 1;
    assert Exceeding(s, 14, 15) == 0;
    assert InversionsBefore(s, 15) == 1;
    BottomBlankRow(g);
  }

  /** The goal with 14 and 15 exchanged: cells (3, 1) and (3, 2) swapped. */
  const Swapped: Grid := SwapCells(Goal, 3, 1, 3, 2)

  /** Swapped in row-major order: 1, ..., 13, 15, 14, then the blank. */
  lemma FlattenSwapped()
    ensures Shape(Swapped)
    ensures forall c :: 0 <= c < 16 ==>
      Flatten(Swapped)[c] == if c == 13 then 15 else if c == 14 then 14 else if c == 15 then 0 else c + 1
  {
    forall c | 0 <= c < 16
      ensures Flatten(Swapped)[c] == if c == 13 then 15 else if c == 14 then 14 else if c == 15 then 0 else c + 1
    {
      GoalCell(c / 4, c % 4);
    }
  }

  /** The goal with 14 and 15 exchanged is a valid board that fails the test: one inversion. */
  lemma SwappedUnsolvable()
    ensures ValidBoard(Swapped) && !Solvable(Swapped)
  {
    GoalIsValid();
    SwapKeepsValid(Goal, 3, 1, 3, 2);
    FlattenSwapped();
    OneSwapUnsolvable(Swapped);
  }

  /**
   * The checks of `api_solve` in order: the lines, then `sorted(flat) ==
   * list(range(16))`, then the parity test. A puzzle is accepted exactly when
   * all three pass.
   */
  method CheckPuzzle(lines: seq<Line>) returns (r: Result<Grid, Rejection>)
    ensures |lines| != 4 ==> r == Failure(WrongRowCount)
    ensures |lines| == 4 && FirstLineError(lines).Some? ==> r == Failure(FirstLineError(lines).value)
    ensures WellFormed(lines) && !ValidBoard(Rows(lines)) ==> r == Failure(NotPermutation)
    ensures WellFormed(lines) && ValidBoard(Rows(lines)) && !Solvable(Rows(lines)) ==> r == Failure(Unsolvable)
    ensures r.Success? <==> WellFormed(lines) && ValidBoard(Rows(lines)) && Solvable(Rows(lines))
    ensures r.Success? ==> WellFormed(lines) && r.value == Rows(lines)
    ensures r.Failure? ==> r.error != NoSolution
  {
    var parsed := ParseRows(lines);
    if parsed.Failure? {
      return Failure(parsed.error);
    }
    var puzzle := parsed.value;
    if !ValidBoard(puzzle) {
      return Failure(NotPermutation);
    }
    var inversions := CountInversions(NonBlank(Flatten(puzzle)));
    var emptyRow := EmptyRow(puzzle);
    if (inversions + emptyRow) % 2 != 1 {
      return Failure(Unsolvable);
    }
    return Success(puzzle);
  }

  /**
   * `api_solve` after the request is read: check the puzzle, then run
   * `ida_star`; `None` becomes the no-solution reply. A rejected puzzle gets
   * the reply of the first check it fails; an accepted one gets moves that
   * replay from the submitted board to the goal, or the no-solution reply.
   */
  method ApiSolve(lines: seq<Line>) returns (r: Result<seq<string>, Rejection>)
    ensures |lines| != 4 ==> r == Failure(WrongRowCount)
    ensures |lines| == 4 && FirstLineError(lines).Some? ==> r == Failure(FirstLineError(lines).value)
    ensures WellFormed(lines) && !ValidBoard(Rows(lines)) ==> r == Failure(NotPermutation)
    ensures WellFormed(lines) && ValidBoard(Rows(lines)) && !Solvable(Rows(lines)) ==> r == Failure(Unsolvable)
    ensures WellFormed(lines) && ValidBoard(Rows(lines)) && Solvable(Rows(lines)) ==> r == SolveReply(Rows(lines))
    ensures r.Success? ==>
      && WellFormed(lines) && ValidBoard(Rows(lines)) && Solvable(Rows(lines))
      && HasBlank(Rows(lines)) && Replay(Rows(lines), r.value) == Goal
    ensures !(WellFormed(lines) && ValidBoard(Rows(lines)) && Solvable(Rows(lines))) ==>
      r.Failure? && r.error != NoSolution
    ensures WellFormed(lines) && Rows(lines) == Goal ==> r == Success([])
  {
    var checked := CheckPuzzle(lines);
    if checked.Failure? {
      if WellFormed(lines) && Rows(lines) == Goal {
        GoalSolvable();
      }
      return Failure(checked.error);
    }
    r := SolveChecked(checked.value);
  }

  /** The reply for a checked puzzle: `ida_star`'s moves, or the no-solution reply on `None`. */
  ghost function SolveReply(puzzle: Grid): Result<seq<string>, Rejection>
    requires ValidBoard(puzzle)
  {
    var solution := IdaStarValue(puzzle);
    if solution.Some? then Success(solution.value) else Failure(NoSolution)
  }

  /**
   * The end of `api_solve` for a puzzle that passed every check: run
   * `ida_star` and send back its moves, or the no-solution reply on `None`.
   */
  method SolveChecked(puzzle: Grid) returns (r: Result<seq<string>, Rejection>)
    requires ValidBoard(puzzle)
    ensures r == SolveReply(puzzle)
    ensures r.Success? ==> HasBlank(puzzle) && Replay(puzzle, r.value) == Goal
    ensures puzzle == Goal ==> r == Success([])
  {
    var solution;
    ghost var thresholds, results;
    solution, thresholds, results := IdaStar(puzzle);
    if solution.None? {
      return Failure(NoSolution);
    }
    return Success(solution.value);
  }
}
