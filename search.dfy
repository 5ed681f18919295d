/**
 * IDA* search: the depth-first pass `search`, which pushes and pops boards on
 * a shared path, and the driver `ida_star`, which repeats passes with a rising
 * threshold.
 */
module Search {
  import opened Wrappers
  import opened Board
  import opened Moves
  import opened Heuristic

  /** What a pass returns: "FOUND", a cost above the threshold, or float('inf'). */
  datatype Cost = Found | Bound(n: nat) | Infinite

  /**
   * Python's `temp < min_cost` on the two numeric kinds of Cost: nothing is
   * below itself, and infinity is below nothing.
   */
  predicate Less(a: Cost, b: Cost): (r: bool)
    ensures r ==> a.Bound? && b != Found
  {
    a.Bound? && (b.Infinite? || (b.Bound? && a.n < b.n))
  }

  /** `<` on costs is a strict order: irreflexive, asymmetric and transitive. */
  lemma LessIsStrictOrder(a: Cost, b: Cost, c: Cost)
    ensures !Less(a, a)
    ensures Less(a, b) ==> !Less(b, a)
    ensures Less(a, b) && Less(b, c) ==> Less(a, c)
  {
  }

  /** `min_cost` after the loop has seen cs: start at infinity, keep each smaller cost. */
  function MinCost(cs: seq<Cost>): Cost
  {
    if |cs| == 0 then Infinite
    else
      var m := MinCost(cs[..|cs| - 1]);
      if Less(cs[|cs| - 1], m) then cs[|cs| - 1] else m
  }

  /**
   * The minimum kept is infinity or one of the costs, and lies at or below
   * every finite cost ("FOUND" never reaches the comparison: `search` returns
   * on it first).
   */
  lemma {:induction false} MinCostIsLeast(cs: seq<Cost>)
    requires forall k :: 0 <= k < |cs| ==> cs[k] != Found
    ensures MinCost(cs) == Infinite || MinCost(cs) in cs
    ensures forall k :: 0 <= k < |cs| && cs[k].Bound? ==> MinCost(cs).Bound? && MinCost(cs).n <= cs[k].n
  {
    if |cs| > 0 {
      var init := cs[..|cs| - 1];
      MinCostIsLeast(init);
      if MinCost(init) in init {
        var k :| 0 <= k < |init| && init[k] == MinCost(init);
        assert cs[k] == init[k];
      }
      assert forall k :: 0 <= k < |init| ==> init[k] == cs[k];
    }
  }

  /** A minimum over costs that are all above the threshold or infinite is above the threshold or infinite. */
  lemma MinCostAbove(cs: seq<Cost>, threshold: nat)
    requires forall k :: 0 <= k < |cs| ==> Explored(cs[k], threshold)
    ensures Explored(MinCost(cs), threshold)
  {
    MinCostIsLeast(cs);
  }

  /** One more cost updates the minimum as `if temp < min_cost: min_cost = temp` does. */
  lemma MinCostAppend(cs: seq<Cost>, c: Cost)
    ensures MinCost(cs + [c]) == if Less(c, MinCost(cs)) then c else MinCost(cs)
  {
    assert (cs + [c])[..|cs|] == cs;
  }

  /** One turn of the loop over cs: the prefix seen grows by cs[k], and the minimum with it. */
  lemma MinCostPrefix(cs: seq<Cost>, k: int)
    requires 0 <= k < |cs|
    ensures MinCost(cs[..k + 1]) == if Less(cs[k], MinCost(cs[..k])) then cs[k] else MinCost(cs[..k])
    ensures Found in cs[..k + 1] <==> Found in cs[..k] || cs[k] == Found
  {
    assert cs[..k + 1] == cs[..k] + [cs[k]];
    MinCostAppend(cs[..k], cs[k]);
  }

  /** A cost a pass can hand back to its caller: a number above the threshold, or infinity. */
  predicate Explored(c: Cost, threshold: nat) {
    c != Found && (c.Bound? ==> c.n > threshold)
  }

  /** A path entry: a board and the move that produced it (None for the start). */
  datatype Entry = Entry(board: Grid, move: Option<string>)

  /**
   * A well-formed search path: every board is valid, and every entry after the
   * first is one of the neighbours `get_neighbors` lists for its predecessor.
   */
  ghost predicate Chain(es: seq<Entry>) {
    && |es| > 0
    && ValidBoard(es[0].board)
    && (forall k :: 1 <= k < |es| ==> es[k].move.Some?)
    && forall k :: 1 <= k < |es| ==> IsStep(es[k - 1].board, es[k])
  }

  /** e is one of the (neighbour, move) pairs `get_neighbors` yields for prev, a valid board. */
  ghost predicate IsStep(prev: Grid, e: Entry) {
    ValidBoard(prev) && e.move.Some? && (e.board, e.move.value) in ScanNeighbors(prev)
  }

  /** A step leads to a valid board: the one `apply_move` makes of prev with e's move. */
  lemma StepIsMove(prev: Grid, e: Entry)
    requires IsStep(prev, e)
    ensures HasBlank(prev) && e.move.Some? && ValidBoard(e.board)
    ensures e.board == ApplyMoveSpec(prev, e.move.value)
  {
    ValidHasBlank(prev);
    ValidScan(prev);
    var ns := ScanNeighbors(prev);
    var k :| 0 <= k < |ns| && ns[k] == (e.board, e.move.value);
  }

  /** Every pair `get_neighbors` yields for a valid board is a step from it. */
  lemma ScannedAreSteps(g: Grid, ns: seq<Neighbor>)
    requires ValidBoard(g) && ns == ScanNeighbors(g)
    ensures forall k :: 0 <= k < |ns| ==> IsStep(g, Entry(ns[k].0, Some(ns[k].1)))
  {
    forall k | 0 <= k < |ns|
      ensures IsStep(g, Entry(ns[k].0, Some(ns[k].1)))
    {
      assert ns[k] in ScanNeighbors(g);
    }
  }

  /** Every board on a chain is valid. */
  lemma ChainValid(es: seq<Entry>, k: int)
    requires Chain(es) && 0 <= k < |es|
    ensures ValidBoard(es[k].board)
  {
    if k > 0 {
      StepIsMove(es[k - 1].board, es[k]);
    }
  }

  /** No board occurs twice on the path. */
  ghost predicate NoRepeats(es: seq<Entry>) {
    forall a, b :: 0 <= a < b < |es| ==> es[a].board != es[b].board
  }

  /** `[m for _, m in path[1:]]`. */
  function MovesOf(es: seq<Entry>): (ms: seq<string>)
    requires forall k :: 0 <= k < |es| ==> es[k].move.Some?
    ensures |ms| == |es| && forall k :: 0 <= k < |es| ==> ms[k] == es[k].move.value
  {
    seq(|es|, k requires 0 <= k < |es| => es[k].move.value)
  }

  /** The one-entry path `[(start, None)]` is a chain without repeats. */
  lemma ChainStart(start: Grid)
    requires ValidBoard(start)
    ensures Chain([Entry(start, None)]) && NoRepeats([Entry(start, None)])
  {
  }

  /** Appending a neighbour of the last board that is not yet on the path keeps a chain without repeats. */
  lemma ChainExtend(es: seq<Entry>, e: Entry)
    requires Chain(es) && NoRepeats(es)
    requires IsStep(es[|es| - 1].board, e)
    requires forall k :: 0 <= k < |es| ==> es[k].board != e.board
    ensures Chain(es + [e]) && NoRepeats(es + [e])
  {
    var ext := es + [e];
    forall k | 1 <= k < |ext|
      ensures IsStep(ext[k - 1].board, ext[k])
    {
      if k < |es| {
        assert ext[k - 1] == es[k - 1] && ext[k] == es[k];
      }
    }
  }

  /** Dropping the first entry of a chain of two or more leaves a chain. */
  lemma ChainTail(es: seq<Entry>)
    requires Chain(es) && |es| > 1
    ensures Chain(es[1..])
  {
    StepIsMove(es[0].board, es[1]);
    var rest := es[1..];
    forall k | 1 <= k < |rest|
      ensures IsStep(rest[k - 1].board, rest[k])
    {
      assert rest[k] == es[k + 1] && rest[k - 1] == es[k];
    }
  }

  /** The moves of a path are its first entry's move followed by the moves of the rest. */
  lemma MovesOfCons(es: seq<Entry>)
    requires |es| > 0 && forall k :: 0 <= k < |es| ==> es[k].move.Some?
    ensures MovesOf(es) == [es[0].move.value] + MovesOf(es[1..])
  {
  }

  /** Replaying the moves of a path from its first board ends at its last board. */
  lemma {:induction false} ReplayChain(es: seq<Entry>)
    requires Chain(es)
    ensures HasBlank(es[0].board) && Replay(es[0].board, MovesOf(es[1..])) == es[|es| - 1].board
    decreases |es|
  {
    ValidHasBlank(es[0].board);
    if |es| > 1 {
      ChainTail(es);
      ReplayChain(es[1..]);
      assert es[1..][1..] == es[2..];
      ReplayFirstStep(es);
    }
  }

  /** Replaying a path's moves first applies the move that made its second board. */
  lemma ReplayFirstStep(es: seq<Entry>)
    requires Chain(es) && |es| > 1
    ensures HasBlank(es[0].board) && HasBlank(es[1].board)
    ensures Replay(es[0].board, MovesOf(es[1..])) == Replay(es[1].board, MovesOf(es[2..]))
  {
    ValidHasBlank(es[0].board);
    StepIsMove(es[0].board, es[1]);
    MovesOfCons(es[1..]);
    assert es[1..][1..] == es[2..];
  }

  /** The shared `path` list that `search` appends to and pops from. */
  class Path {
    var entries: seq<Entry>

    /** `path = [(start, None)]`. */
    constructor (start: Grid)
      ensures entries == [Entry(start, None)]
    {
      entries := [Entry(start, None)];
    }

    /** `path.append(e)`. */
    method Append(e: Entry)
      modifies this
      ensures entries == old(entries) + [e]
    {
      entries := entries + [e];
    }

    /** `path.pop()`. */
    method Pop()
      requires |entries| > 0
      modifies this
      ensures entries == old(entries)[..|old(entries)| - 1]
    {
      entries := entries[..|entries| - 1];
    }

    /** `any(prev[0] == b for prev in path)`. */
    predicate Contains(b: Grid)
      reads this
      ensures Contains(b) <==> OnPath(entries, b)
    {
      exists k :: 0 <= k < |entries| && entries[k].board == b
    }
  }

  /** The board at the end of a path: `node, _ = path[-1]`. */
  function Last(es: seq<Entry>): Grid
    requires |es| > 0
  {
    es[|es| - 1].board
  }

  /** `any(prev[0] == b for prev in path)` on a path value. */
  ghost predicate OnPath(es: seq<Entry>, b: Grid) {
    exists k :: 0 <= k < |es| && es[k].board == b
  }

  /**
   * The value `search(path, g, threshold)` returns when path holds es, by the
   * recursion of the source: f = g + h when f exceeds the threshold, "FOUND"
   * at the goal, and otherwise what the loop over the neighbours of the last
   * board makes of the cost it records for each of them.
   */
  ghost function PassValue(es: seq<Entry>, g: nat, threshold: nat): Cost
    requires |es| > 0 && ValidBoard(Last(es))
    decreases threshold - g, 2
  {
    var node := Last(es);
    ValidInRange(node);
    if g + Estimate(node) > threshold then Bound(g + Estimate(node))
    else if IsGoal(node) then Found
    else
      ValidScan(node);
      LoopValue(CostList(es, g, threshold, ScanNeighbors(node)))
  }

  /** The costs the loop of `search` meets, one per neighbour in ns, in order. */
  ghost function CostList(es: seq<Entry>, g: nat, threshold: nat, ns: seq<Neighbor>): (cs: seq<Cost>)
    requires g <= threshold
    requires forall k :: 0 <= k < |ns| ==> ValidBoard(ns[k].0)
    ensures |cs| == |ns|
    decreases threshold - g, 1
  {
    seq(|ns|, k requires 0 <= k < |ns| => TriedCost(es, g, threshold, ns[k]))
  }

  /** The k-th cost of the list is the k-th neighbour's TriedCost. */
  lemma CostListAt(es: seq<Entry>, g: nat, threshold: nat, ns: seq<Neighbor>, k: int)
    requires g <= threshold && 0 <= k < |ns|
    requires forall i :: 0 <= i < |ns| ==> ValidBoard(ns[i].0)
    ensures CostList(es, g, threshold, ns)[k] == TriedCost(es, g, threshold, ns[k])
  {
  }

  /**
   * The cost of one neighbour: infinity when its board is already on the path
   * (the `continue`), otherwise the value of the pass one level deeper with
   * the neighbour pushed.
   */
  ghost function TriedCost(es: seq<Entry>, g: nat, threshold: nat, n: Neighbor): Cost
    requires g <= threshold && ValidBoard(n.0)
    decreases threshold - g, 0
  {
    if OnPath(es, n.0) then Infinite
    else PassValue(es + [Entry(n.0, Some(n.1))], g + 1, threshold)
  }

  /**
   * What the loop returns after meeting costs cs: "FOUND" as soon as one of
   * them is "FOUND", and otherwise `min_cost`.
   */
  ghost function LoopValue(cs: seq<Cost>): Cost {
    if Found in cs then Found else MinCost(cs)
  }

  /**
   * The path a pass that returns "FOUND" leaves behind, by the same recursion
   * as PassValue: es itself at a goal, and otherwise the path of the first
   * neighbour, in the order the loop tries them, whose cost is "FOUND".
   * Every entry it adds carries a move.
   */
  ghost function FoundPath(es: seq<Entry>, g: nat, threshold: nat): (p: seq<Entry>)
    requires |es| > 0 && ValidBoard(Last(es))
    ensures |es| <= |p| && p[..|es|] == es
    ensures forall k :: |es| <= k < |p| ==> p[k].move.Some?
    decreases threshold - g, 1, 0
  {
    var node := Last(es);
    ValidInRange(node);
    if g + Estimate(node) > threshold || IsGoal(node) then es
    else
      ValidScan(node);
      FirstFound(es, g, threshold, ScanNeighbors(node), 0)
  }

  /** FoundPath for the loop from the k-th neighbour on. */
  ghost function FirstFound(es: seq<Entry>, g: nat, threshold: nat, ns: seq<Neighbor>, k: nat): (p: seq<Entry>)
    requires |es| > 0 && g <= threshold && k <= |ns|
    requires forall i :: 0 <= i < |ns| ==> ValidBoard(ns[i].0)
    ensures |es| <= |p| && p[..|es|] == es
    ensures forall i :: |es| <= i < |p| ==> p[i].move.Some?
    decreases threshold - g, 0, |ns| - k
  {
    if k == |ns| then es
    else if TriedCost(es, g, threshold, ns[k]) == Found then
      var e := Entry(ns[k].0, Some(ns[k].1));
      var p := FoundPath(es + [e], g + 1, threshold);
      assert p[..|es|] == p[..|es| + 1][..|es|];
      p
    else FirstFound(es, g, threshold, ns, k + 1)
  }

  /** One turn of FirstFound: the k-th neighbour's path when its cost is "FOUND", else the next turn. */
  lemma FirstFoundStep(es: seq<Entry>, g: nat, threshold: nat, ns: seq<Neighbor>, k: nat)
    requires |es| > 0 && g <= threshold && k < |ns|
    requires forall i :: 0 <= i < |ns| ==> ValidBoard(ns[i].0)
    ensures TriedCost(es, g, threshold, ns[k]) == Found ==>
      FirstFound(es, g, threshold, ns, k) == FoundPath(es + [Entry(ns[k].0, Some(ns[k].1))], g + 1, threshold)
    ensures TriedCost(es, g, threshold, ns[k]) != Found ==>
      FirstFound(es, g, threshold, ns, k) == FirstFound(es, g, threshold, ns, k + 1)
  {
  }

  /** A pass that does not find the goal returns a number above the threshold, or infinity. */
  lemma {:induction false} PassValueExplored(es: seq<Entry>, g: nat, threshold: nat)
    requires |es| > 0 && ValidBoard(Last(es))
    ensures PassValue(es, g, threshold) != Found ==> Explored(PassValue(es, g, threshold), threshold)
    decreases threshold - g, 1
  {
    var node := Last(es);
    ValidInRange(node);
    if g + Estimate(node) <= threshold && !IsGoal(node) {
      ValidScan(node);
      var ns := ScanNeighbors(node);
      var cs := CostList(es, g, threshold, ns);
      if Found !in cs {
        forall k | 0 <= k < |cs|
          ensures Explored(cs[k], threshold)
        {
          assert cs[k] == TriedCost(es, g, threshold, ns[k]);
          TriedCostIsNeighborCost(es, g, threshold, ns[k]);
        }
        MinCostAbove(cs, threshold);
      }
    }
  }

  /**
   * What the loop of `search`, at depth g on path es, records for the
   * neighbour b: a number above the threshold or infinity; infinity when b
   * is already on the path and is skipped; and exactly b's own `f`,
   * g + 1 + its heuristic, when the deeper call cuts off at once.
   */
  ghost predicate NeighborCost(es: seq<Entry>, g: nat, threshold: nat, b: Grid, c: Cost) {
    && Explored(c, threshold)
    && (OnPath(es, b) ==> c == Infinite)
    && (!OnPath(es, b) && InRange(b) && g + 1 + Estimate(b) > threshold ==> c == Bound(g + 1 + Estimate(b)))
  }

  /** Every cost the loop compares is what NeighborCost says of its neighbour. */
  lemma {:induction false} TriedCostIsNeighborCost(es: seq<Entry>, g: nat, threshold: nat, n: Neighbor)
    requires g <= threshold && ValidBoard(n.0)
    ensures TriedCost(es, g, threshold, n) != Found ==> NeighborCost(es, g, threshold, n.0, TriedCost(es, g, threshold, n))
    decreases threshold - g, 0
  {
    ValidInRange(n.0);
    if !OnPath(es, n.0) {
      PassValueExplored(es + [Entry(n.0, Some(n.1))], g + 1, threshold);
    }
  }

  /**
   * The nested `search(path, g, threshold)`. Its result is PassValue of the
   * path it is given: at a node whose `f = g + h` exceeds the threshold
   * exactly f, and at a goal node within the threshold "FOUND". A numeric
   * result lies above the threshold and leaves the path as it found it;
   * "FOUND" leaves the path extended, through neighbour steps, to the goal
   * board, within the threshold.
   */
  method Search(path: Path, g: nat, threshold: nat) returns (r: Cost)
    requires Chain(path.entries) && NoRepeats(path.entries)
    modifies path
    ensures Chain(path.entries) && NoRepeats(path.entries)
    ensures r.Bound? ==> r.n > threshold
    ensures r != Found ==> path.entries == old(path.entries)
    ensures r == Found ==>
      && |old(path.entries)| <= |path.entries|
      && path.entries[..|old(path.entries)|] == old(path.entries)
      && IsGoal(path.entries[|path.entries| - 1].board)
      && g + |path.entries| - |old(path.entries)| <= threshold
    ensures IsGoal(Last(old(path.entries))) && g <= threshold ==>
      r == Found && path.entries == old(path.entries)
    ensures ValidBoard(Last(old(path.entries))) && InRange(Last(old(path.entries)))
    ensures g + Estimate(Last(old(path.entries))) > threshold ==>
      r == Bound(g + Estimate(Last(old(path.entries))))
    ensures r == PassValue(old(path.entries), g, threshold)
    ensures r == Found ==> path.entries == FoundPath(old(path.entries), g, threshold)
    decreases threshold - g, 3
  {
    var node := path.entries[|path.entries| - 1].board;
    ChainValid(path.entries, |path.entries| - 1);
    ValidInRange(node);
    if IsGoal(node) {
      GoalEstimateZero(node);
    }
    var h := ManhattanLinearConflict(node);
    var f := g + h;
    if f > threshold {
      return Bound(f);
    }
    if IsGoal(node) {
      return Found;
    }
    r := Expand(path, g, threshold);
  }

  /**
   * `search` past its two early returns, on a last board within the
   * threshold that is not the goal: list the neighbours of the last board
   * and try them in turn.
   */
  method Expand(path: Path, g: nat, threshold: nat) returns (r: Cost)
    requires Chain(path.entries) && NoRepeats(path.entries)
    requires InRange(Last(path.entries)) && g + Estimate(Last(path.entries)) <= threshold
    requires !IsGoal(Last(path.entries))
    modifies path
    ensures Chain(path.entries) && NoRepeats(path.entries)
    ensures r.Bound? ==> r.n > threshold
    ensures r != Found ==> path.entries == old(path.entries)
    ensures r == Found ==>
      && |old(path.entries)| < |path.entries|
      && path.entries[..|old(path.entries)|] == old(path.entries)
      && IsGoal(path.entries[|path.entries| - 1].board)
      && g + |path.entries| - |old(path.entries)| <= threshold
    ensures ValidBoard(Last(old(path.entries)))
    ensures r == PassValue(old(path.entries), g, threshold)
    ensures r == Found ==> path.entries == FoundPath(old(path.entries), g, threshold)
    decreases threshold - g, 2
  {
    var node := path.entries[|path.entries| - 1].board;
    ChainValid(path.entries, |path.entries| - 1);
    var neighbors := GetNeighbors(node);
    ScannedAreSteps(node, neighbors);
    ValidScan(node);
    r := SearchNeighbors(path, g, threshold, neighbors);
  }

  /**
   * The loop of `search`: over the neighbours of the last board, skip boards
   * already on the path, push, search one level deeper, stop on "FOUND",
   * keep the smallest cost, pop. The result is LoopValue of the costs met,
   * each as TriedCost defines it.
   */
  method SearchNeighbors(path: Path, g: nat, threshold: nat, neighbors: seq<Neighbor>) returns (r: Cost)
    requires Chain(path.entries) && NoRepeats(path.entries) && g <= threshold
    requires forall k :: 0 <= k < |neighbors| ==>
      IsStep(Last(path.entries), Entry(neighbors[k].0, Some(neighbors[k].1)))
    requires forall k :: 0 <= k < |neighbors| ==> ValidBoard(neighbors[k].0)
    modifies path
    ensures Chain(path.entries) && NoRepeats(path.entries)
    ensures r.Bound? ==> r.n > threshold
    ensures r != Found ==> path.entries == old(path.entries)
    ensures r == Found ==>
      && |old(path.entries)| < |path.entries|
      && path.entries[..|old(path.entries)|] == old(path.entries)
      && IsGoal(path.entries[|path.entries| - 1].board)
      && g + |path.entries| - |old(path.entries)| <= threshold
    ensures r == LoopValue(CostList(old(path.entries), g, threshold, neighbors))
    ensures r == Found ==> path.entries == FirstFound(old(path.entries), g, threshold, neighbors, 0)
    decreases threshold - g, 1
  {
    var minCost := Infinite;
    ghost var entry := path.entries;
    ghost var costs := CostList(entry, g, threshold, neighbors);
    for k := 0 to |neighbors|
      invariant path.entries == entry
      invariant Found !in costs[..k] && minCost == MinCost(costs[..k])
      invariant Explored(minCost, threshold)
      invariant FirstFound(entry, g, threshold, neighbors, k) == FirstFound(entry, g, threshold, neighbors, 0)
    {
      var (neighbor, move) := neighbors[k];
      MinCostPrefix(costs, k);
      CostListAt(entry, g, threshold, neighbors, k);
      FirstFoundStep(entry, g, threshold, neighbors, k);
      if path.Contains(neighbor) {
        continue;
      }
      var temp := TryNeighbor(path, g, threshold, neighbor, move);
      assert temp == costs[k];
      if temp == Found {
        return Found;
      }
      if Less(temp, minCost) {
        minCost := temp;
      }
    }
    assert costs[..|neighbors|] == costs;
    return minCost;
  }

  /**
   * One turn of the loop of `search` for a neighbour not yet on the path:
   * push it, search one level deeper, and pop it again unless that search
   * found the goal. The result is the deeper pass's value.
   */
  method TryNeighbor(path: Path, g: nat, threshold: nat, neighbor: Grid, move: string) returns (temp: Cost)
    requires Chain(path.entries) && NoRepeats(path.entries) && g <= threshold
    requires IsStep(Last(path.entries), Entry(neighbor, Some(move))) && ValidBoard(neighbor)
    requires !OnPath(path.entries, neighbor)
    modifies path
    ensures Chain(path.entries) && NoRepeats(path.entries)
    ensures temp == PassValue(old(path.entries) + [Entry(neighbor, Some(move))], g + 1, threshold)
    ensures temp == Found ==> path.entries == FoundPath(old(path.entries) + [Entry(neighbor, Some(move))], g + 1, threshold)
    ensures temp != Found ==> path.entries == old(path.entries) && Explored(temp, threshold)
    ensures temp == Found ==>
      && |old(path.entries)| < |path.entries|
      && path.entries[..|old(path.entries)|] == old(path.entries)
      && IsGoal(path.entries[|path.entries| - 1].board)
      && g + |path.entries| - |old(path.entries)| <= threshold
    decreases threshold - g, 0
  {
    ghost var entry := path.entries;
    ChainExtend(path.entries, Entry(neighbor, Some(move)));
    path.Append(Entry(neighbor, Some(move)));
    assert Last(path.entries) == neighbor;
    temp := Search(path, g + 1, threshold);
    if temp == Found {
      assert path.entries[..|entry| + 1] == entry + [Entry(neighbor, Some(move))];
      assert path.entries[..|entry|] == path.entries[..|entry| + 1][..|entry|];
      return;
    }
    path.Pop();
  }

  /** A board that passes `is_goal` has estimate 0. */
  lemma GoalEstimateZero(p: Grid)
    requires IsGoal(p)
    ensures InRange(p) && Estimate(p) == 0
  {
    IsGoalIff(p);
    EstimateGoalZero();
  }

  /** How the driver ends: a move list, infinity from a pass, or the pass limit. */
  datatype Outcome = Solved(moves: seq<string>) | Exhausted | PassLimit

  /** Each threshold is larger than every one before it. */
  predicate Rising(ts: seq<nat>) {
    forall a, b :: 0 <= a < b < |ts| ==> ts[a] < ts[b]
  }

  /** A threshold above the last one keeps the sequence rising. */
  lemma RisingAppend(ts: seq<nat>, t: nat)
    requires Rising(ts) && (|ts| > 0 ==> ts[|ts| - 1] < t)
    ensures Rising(ts + [t])
  {
    var ext := ts + [t];
    forall a, b | 0 <= a < b < |ext|
      ensures ext[a] < ext[b]
    {
      if b == |ts| && a < |ts| - 1 {
        assert ts[a] < ts[|ts| - 1];
      }
    }
  }

  /**
   * The passes the driver has run from start: thresholds[k] is the threshold
   * of pass k and results[k] what that pass returned. The first threshold is
   * the start board's estimate, and each later one is the number the pass
   * before it returned (`threshold = temp`).
   */
  ghost predicate PassTrace(start: Grid, thresholds: seq<nat>, results: seq<Cost>)
    requires ValidBoard(start)
  {
    && |results| == |thresholds|
    && (|thresholds| > 0 ==> InRange(start) && thresholds[0] == Estimate(start))
    && (forall k :: 0 <= k < |results| ==> results[k] == PassValue([Entry(start, None)], 0, thresholds[k]))
    && (forall k :: 0 <= k < |results| - 1 ==> results[k].Bound? && thresholds[k + 1] == results[k].n)
  }

  /**
   * What the driver returns from threshold t with n passes left: the moves
   * of the path a "FOUND" pass leaves, `Exhausted` after a pass returning
   * infinity, `PassLimit` when no pass is left, and otherwise the next pass
   * at the number this one returned.
   */
  ghost function DriverOutcome(start: Grid, t: nat, n: nat): Outcome
    requires ValidBoard(start)
    decreases n
  {
    if n == 0 then PassLimit
    else
      var c := PassValue([Entry(start, None)], 0, t);
      if c == Found then Solved(MovesOf(FoundPath([Entry(start, None)], 0, t)[1..]))
      else if c == Infinite then Exhausted
      else DriverOutcome(start, c.n, n - 1)
  }

  /** One pass of DriverOutcome: stop on "FOUND" or infinity, else go on at the number returned. */
  lemma DriverOutcomeStep(start: Grid, t: nat, n: nat)
    requires ValidBoard(start) && n > 0
    ensures var c := PassValue([Entry(start, None)], 0, t);
      && (c == Found ==> DriverOutcome(start, t, n) == Solved(MovesOf(FoundPath([Entry(start, None)], 0, t)[1..])))
      && (c == Infinite ==> DriverOutcome(start, t, n) == Exhausted)
      && (c.Bound? ==> DriverOutcome(start, t, n) == DriverOutcome(start, c.n, n - 1))
  {
  }

  /**
   * From pass i of a trace on, with n passes left and no fewer passes left
   * than the trace has, DriverOutcome is decided by the trace's last result:
   * the found path's moves, `Exhausted` on infinity, and `PassLimit` when
   * the trace used up every pass.
   */
  lemma {:induction false} TraceOutcome(start: Grid, ts: seq<nat>, rs: seq<Cost>, i: nat, n: nat)
    requires ValidBoard(start) && PassTrace(start, ts, rs)
    requires i < |ts| && |ts| - i <= n
    ensures rs[|rs| - 1] == Found ==>
      DriverOutcome(start, ts[i], n) == Solved(MovesOf(FoundPath([Entry(start, None)], 0, ts[|ts| - 1])[1..]))
    ensures rs[|rs| - 1] == Infinite ==> DriverOutcome(start, ts[i], n) == Exhausted
    ensures rs[|rs| - 1].Bound? && n == |ts| - i ==> DriverOutcome(start, ts[i], n) == PassLimit
    decreases |ts| - i
  {
    DriverOutcomeStep(start, ts[i], n);
    if i < |ts| - 1 {
      TraceOutcome(start, ts, rs, i + 1, n - 1);
    }
  }

  /** The driver's outcome with maxPasses passes, from the start board's estimate. */
  ghost function DriverResult(start: Grid, maxPasses: nat): Outcome
    requires ValidBoard(start)
  {
    ValidInRange(start);
    DriverOutcome(start, Estimate(start), maxPasses)
  }

  /** What endpoints.py's `ida_star` returns: the moves of a solved run of 50 passes, else `None`. */
  ghost function IdaStarValue(start: Grid): Option<seq<string>>
    requires ValidBoard(start)
  {
    var o := DriverResult(start, 50);
    if o.Solved? then Some(o.moves) else None
  }

  /** One more pass, at the threshold the last pass set, extends the trace. */
  lemma PassTraceAppend(start: Grid, thresholds: seq<nat>, results: seq<Cost>, t: nat, c: Cost)
    requires ValidBoard(start) && PassTrace(start, thresholds, results)
    requires |results| == 0 ==> InRange(start) && t == Estimate(start)
    requires |results| > 0 ==> results[|results| - 1] == Bound(t)
    requires c == PassValue([Entry(start, None)], 0, t)
    ensures PassTrace(start, thresholds + [t], results + [c])
  {
    var ts, rs := thresholds + [t], results + [c];
    assert forall k :: 0 <= k < |results| ==> rs[k] == results[k] && ts[k] == thresholds[k];
  }

  /**
   * The driver loop of `ida_star`, run for at most maxPasses passes: solve.py's
   * `while True` with a pass budget, endpoints.py's `while iterations < 50`
   * with 50. Each pass runs at the threshold PassTrace gives it. The outcome
   * is the move list of a pass returning "FOUND", `Exhausted` for a pass
   * returning infinity, and `PassLimit` when every pass returned a number.
   * The thresholds rise strictly, and a move list replays from the start to
   * the goal and is no longer than the last threshold.
   */
  method RunPasses(start: Grid, maxPasses: nat) returns (outcome: Outcome, ghost thresholds: seq<nat>, ghost results: seq<Cost>)
    requires ValidBoard(start)
    ensures outcome == DriverResult(start, maxPasses)
    ensures PassTrace(start, thresholds, results)
    ensures |thresholds| <= maxPasses && (maxPasses > 0 ==> |thresholds| > 0)
    ensures Rising(thresholds)
    ensures outcome.Solved? ==> |results| > 0 && results[|results| - 1] == Found
    ensures outcome.Exhausted? ==> |results| > 0 && results[|results| - 1] == Infinite
    ensures outcome.PassLimit? ==>
      |thresholds| == maxPasses && forall k :: 0 <= k < |results| ==> results[k].Bound?
    ensures outcome.Solved? ==>
      && |thresholds| > 0
      && HasBlank(start)
      && IsGoal(Replay(start, outcome.moves))
      && |outcome.moves| <= thresholds[|thresholds| - 1]
    ensures IsGoal(start) && maxPasses > 0 ==> outcome == Solved([])
  {
    ValidInRange(start);
    var threshold := ManhattanLinearConflict(start);
    var path := new Path(start);
    var iterations := 0;
    thresholds, results := [], [];
    outcome := PassLimit;
    while iterations < maxPasses
      invariant 0 <= iterations <= maxPasses && |thresholds| == iterations
      invariant path.entries == [Entry(start, None)]
      invariant PassTrace(start, thresholds, results)
      invariant forall k :: 0 <= k < |results| ==> results[k].Bound?
      invariant iterations == 0 ==> threshold == Estimate(start)
      invariant iterations > 0 ==> results[iterations - 1] == Bound(threshold)
      invariant iterations > 0 ==> thresholds[iterations - 1] < threshold
      invariant Rising(thresholds)
      invariant IsGoal(start) ==> iterations == 0
      invariant outcome == PassLimit
    {
      var temp;
      temp, outcome, thresholds, results := TracedPass(path, start, threshold, thresholds, results);
      if temp == Found || temp == Infinite {
        break;
      }
      threshold := temp.n;
      iterations := iterations + 1;
    }
    if maxPasses > 0 {
      TraceOutcome(start, thresholds, results, 0, maxPasses);
    }
  }

  /**
   * One turn of the loop of `ida_star`: a pass at threshold, recorded in the
   * trace of the passes run so far.
   */
  method TracedPass(path: Path, start: Grid, threshold: nat, ghost thresholds: seq<nat>, ghost results: seq<Cost>)
    returns (temp: Cost, outcome: Outcome, ghost ts: seq<nat>, ghost rs: seq<Cost>)
    requires ValidBoard(start) && path.entries == [Entry(start, None)]
    requires PassTrace(start, thresholds, results) && Rising(thresholds)
    requires |results| == 0 ==> InRange(start) && threshold == Estimate(start)
    requires |results| > 0 ==> results[|results| - 1] == Bound(threshold) && thresholds[|thresholds| - 1] < threshold
    modifies path
    ensures ts == thresholds + [threshold] && rs == results + [temp]
    ensures PassTrace(start, ts, rs) && Rising(ts)
    ensures temp.Bound? ==>
      temp.n > threshold && outcome == PassLimit && path.entries == [Entry(start, None)]
    ensures temp == Found ==>
      && outcome == Solved(MovesOf(FoundPath([Entry(start, None)], 0, threshold)[1..]))
      && HasBlank(start) && IsGoal(Replay(start, outcome.moves)) && |outcome.moves| <= threshold
    ensures temp == Infinite ==> outcome == Exhausted
    ensures IsGoal(start) ==> outcome == Solved([])
  {
    RisingAppend(thresholds, threshold);
    temp, outcome := RunPass(path, start, threshold);
    PassTraceAppend(start, thresholds, results, threshold, temp);
    ts, rs := thresholds + [threshold], results + [temp];
  }

  /**
   * One pass of the driver: `search(path, 0, threshold)` on the path holding
   * only the start, and on "FOUND" the moves of the path it leaves.
   */
  method RunPass(path: Path, start: Grid, threshold: nat) returns (temp: Cost, outcome: Outcome)
    requires ValidBoard(start) && path.entries == [Entry(start, None)]
    modifies path
    ensures temp == PassValue([Entry(start, None)], 0, threshold)
    ensures temp.Bound? ==> temp.n > threshold
    ensures temp != Found ==> path.entries == [Entry(start, None)]
    ensures temp == Infinite ==> outcome == Exhausted
    ensures temp.Bound? ==> outcome == PassLimit
    ensures temp == Found ==>
      && path.entries == FoundPath([Entry(start, None)], 0, threshold)
      && outcome == Solved(MovesOf(path.entries[1..]))
      && HasBlank(start) && IsGoal(Replay(start, outcome.moves)) && |outcome.moves| <= threshold
    ensures IsGoal(start) ==> outcome == Solved([])
  {
    ChainStart(start);
    temp := Search(path, 0, threshold);
    if temp == Found {
      outcome := FoundMoves(path.entries, start, threshold);
    } else if temp == Infinite {
      outcome := Exhausted;
    } else {
      outcome := PassLimit;
    }
  }

  /**
   * A path from the start that a pass reports as "FOUND" yields moves that
   * replay from the start to the goal, no more of them than the threshold.
   */
  lemma FoundPathSolves(es: seq<Entry>, start: Grid, threshold: nat)
    requires Chain(es) && |es| >= 1 && es[..1] == [Entry(start, None)]
    requires IsGoal(es[|es| - 1].board) && |es| - 1 <= threshold
    ensures HasBlank(start) && IsGoal(Replay(start, MovesOf(es[1..])))
    ensures |MovesOf(es[1..])| <= threshold
  {
    assert es[0] == es[..1][0];
    ReplayChain(es);
  }

  /** `[m for _, m in path[1:]]` once a pass has returned "FOUND". */
  method FoundMoves(es: seq<Entry>, start: Grid, threshold: nat) returns (outcome: Outcome)
    requires Chain(es) && |es| >= 1 && es[..1] == [Entry(start, None)]
    requires IsGoal(es[|es| - 1].board) && |es| - 1 <= threshold
    ensures outcome == Solved(MovesOf(es[1..]))
    ensures HasBlank(start) && IsGoal(Replay(start, outcome.moves))
    ensures |outcome.moves| <= threshold
    ensures |es| == 1 ==> outcome.moves == []
  {
    FoundPathSolves(es, start, threshold);
    outcome := Solved(MovesOf(es[1..]));
  }

  /**
   * endpoints.py's `ida_star`: at most 50 passes, traced as in RunPasses;
   * `None` both when a pass returns infinity and when all 50 passes return a
   * number.
   */
  method IdaStar(start: Grid) returns (solution: Option<seq<string>>, ghost thresholds: seq<nat>, ghost results: seq<Cost>)
    requires ValidBoard(start)
    ensures solution == IdaStarValue(start)
    ensures PassTrace(start, thresholds, results) && 0 < |thresholds| <= 50
    ensures solution.Some? ==>
      && results[|results| - 1] == Found
      && |solution.value| <= thresholds[|thresholds| - 1]
      && HasBlank(start) && Replay(start, solution.value) == Goal
    ensures solution.None? ==>
      || results[|results| - 1] == Infinite
      || (|thresholds| == 50 && forall k :: 0 <= k < |results| ==> results[k].Bound?)
    ensures start == Goal ==> solution == Some([])
  {
    var outcome;
    outcome, thresholds, results := RunPasses(start, 50);
    IsGoalIff(start);
    if outcome.Solved? {
      IsGoalIff(Replay(start, outcome.moves));
      solution := Some(outcome.moves);
    } else {
      solution := None;
    }
  }
}
