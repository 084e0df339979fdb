/** The training controller (NEATNetwork): each tick runs the current network on the board,
    falls back to lower-ranked outputs after repeated illegal moves and adds the move's
    fitness to the slot's total; at the end of an episode the network is saved into its
    slot, and once every slot has played, the elites seed the next generation. */
module Training {
  import opened Support
  import opened Activations
  import opened Layers
  import opened Networks

  /** A grid cell: empty, or holding a block whose value is the tile's exponent. */
  datatype Cell = Empty | Occupied(value: int)

  /** What the controller reads from the game: the cells in board order, GameManager.score
      and the game manager's round counter. */
  datatype Game = Game(cells: seq<Cell>, score: int, round: int)

  /** The board is the 4x4 grid. */
  predicate WellFormed(g: Game)
  {
    |g.cells| == 16
  }

  /** The value a cell contributes: its block's value, or 0 when it is empty. */
  function CellValue(c: Cell): int
  {
    if c.Occupied? then c.value else 0
  }

  /** getHighestValueInBoard: the largest block value, starting from 0. */
  function Highest(cells: seq<Cell>): (h: int)
    ensures h >= 0
    ensures forall i :: 0 <= i < |cells| ==> CellValue(cells[i]) <= h
    ensures h == 0 || exists i :: 0 <= i < |cells| && cells[i] == Occupied(h)
  {
    if |cells| == 0 then 0
    else
      var h := Highest(cells[..|cells| - 1]);
      var last := cells[|cells| - 1];
      if last.Occupied? && last.value > h then last.value
      else
        assert forall i :: 0 <= i < |cells| - 1 ==> cells[..|cells| - 1][i] == cells[i];
        h
  }

  /** The number of empty cells, counted as BoardToArray counts openSpaces. */
  function EmptyCount(cells: seq<Cell>): (n: nat)
    ensures n <= |cells|
  {
    if |cells| == 0 then 0
    else EmptyCount(cells[..|cells| - 1]) + (if cells[|cells| - 1] == Empty then 1 else 0)
  }

  /** openSpaces is the number of positions holding no block. */
  lemma {:induction false} EmptyCountIsCardinality(cells: seq<Cell>)
    ensures EmptyCount(cells) == |set i | 0 <= i < |cells| && cells[i] == Empty|
  {
    if |cells| > 0 {
      var n := |cells| - 1;
      var front := cells[..n];
      EmptyCountIsCardinality(front);
      var before := set i | 0 <= i < n && front[i] == Empty;
      var all := set i | 0 <= i < |cells| && cells[i] == Empty;
      if cells[n] == Empty {
        assert all == before + {n};
        assert n !in before;
      } else {
        assert all == before;
      }
    }
  }

  /** BoardToArray: the 16 cell values followed by the number of illegal moves. */
  function Encoding(cells: seq<Cell>, fails: int): (r: seq<real>)
    requires |cells| == 16
    ensures |r| == 17
  {
    seq(17, i requires 0 <= i < 17 => if i < 16 then CellValue(cells[i]) as real else fails as real)
  }

  /** checkIndex: the offsets of the neighbours Fitness looks at. */
  const CheckIndex: seq<int> := [-1, 1, -4, 4]

  /** C#'s division of an index by 16, which truncates toward zero. */
  function RowOf(index: int): int
  {
    if index >= 0 then index / 16 else -((-index) / 16)
  }

  /** Whether the neighbour at offset number k of index h is inside the grid, passes the row
      test (offsets -1 and +1 only) and holds 1. */
  predicate NeighbourHit(board: seq<real>, h: int, k: nat)
    requires |board| == 17 && k < 4
  {
    var c := h + CheckIndex[k];
    0 <= c <= 15 && (k < 2 ==> RowOf(h) == RowOf(c)) && board[c] == 1.0
  }

  /** highestBlockNextToEachOther: some offset finds a 1 next to index h. */
  predicate NextToEachOther(board: seq<real>, h: int)
    requires |board| == 17
  {
    exists k :: 0 <= k < 4 && NeighbourHit(board, h, k)
  }

  /** The index Fitness calls the highest block is the FIRST entry equal to 1, so the offsets
      -1 and -4 never find another 1, and the row test never rules out a neighbour inside the
      grid: only the cells right after it and four after it count. */
  lemma NeighbourTestLooksForward(board: seq<real>)
    requires |board| == 17
    ensures var h := IndexOf(board, 1.0);
      NextToEachOther(board, h) <==>
        0 <= h <= 14 && (board[h + 1] == 1.0 || (h <= 11 && board[h + 4] == 1.0))
  {
    var h := IndexOf(board, 1.0);
    assert RowOf(16) == 1 && RowOf(15) == 0;
    if 0 <= h <= 14 && board[h + 1] == 1.0 {
      assert NeighbourHit(board, h, 1);
    }
    if 0 <= h <= 11 && board[h + 4] == 1.0 {
      assert NeighbourHit(board, h, 3);
    }
  }

  /** The value Fitness returns for game g, given the illegal-move count and the highest value
      reached before the call. The +1 is added to the product, not to the round count. */
  function FitnessValue(g: Game, fails: int, prevHighest: int): real
    requires WellFormed(g)
  {
    var highest := Highest(g.cells);
    var addition := if highest > prevHighest then highest else 0;
    var failedCheck := if fails > 0 then fails else 1;
    var board := Encoding(g.cells, fails);
    var v := if NextToEachOther(board, IndexOf(board, 1.0)) then 10.0 else 0.1;
    FitnessFormula(g.score, board[4], v, g.round, EmptyCount(g.cells), failedCheck, addition)
  }

  /** The return expression of Fitness. */
  function FitnessFormula(score: int, cell4: real, v: real, round: int, openSpaces: int,
                          failedCheck: int, addition: int): real
    requires failedCheck != 0
  {
    (score as real * cell4 * v * round as real + 1.0) * (openSpaces + 1) as real / failedCheck as real
      + addition as real
  }

  /** FitnessValue in terms of its parts, as Fitness computes them. */
  lemma FitnessValueParts(g: Game, fails: int, prevHighest: int, board: seq<real>, addition: int, v: real)
    requires WellFormed(g) && board == Encoding(g.cells, fails)
    requires addition == if Highest(g.cells) > prevHighest then Highest(g.cells) else 0
    requires v == if NextToEachOther(board, IndexOf(board, 1.0)) then 10.0 else 0.1
    ensures FitnessValue(g, fails, prevHighest) ==
      FitnessFormula(g.score, board[4], v, g.round, EmptyCount(g.cells), if fails > 0 then fails else 1, addition)
  {
  }

  /** Every block on the board has a value of at least 0. */
  predicate NonNegativeBlocks(g: Game)
  {
    forall i :: 0 <= i < |g.cells| ==> CellValue(g.cells[i]) >= 0
  }

  /** With a non-negative score, round and block values, the fitness of a tick is positive:
      at least (openSpaces + 1) / max(fails, 1), and at least openSpaces + 1 when fewer than
      two illegal moves were made. In particular it is never the 0 that GetBestNetworks
      puts in the last slot of its sorted copy. */
  lemma FitnessPositive(g: Game, fails: int, prevHighest: int)
    requires WellFormed(g) && NonNegativeBlocks(g) && g.score >= 0 && g.round >= 0 && fails >= 0
    ensures var failedCheck := if fails > 0 then fails else 1;
      FitnessValue(g, fails, prevHighest) >= (EmptyCount(g.cells) + 1) as real / failedCheck as real > 0.0
    ensures fails <= 1 ==> FitnessValue(g, fails, prevHighest) >= (EmptyCount(g.cells) + 1) as real
  {
    var board := Encoding(g.cells, fails);
    var v := if NextToEachOther(board, IndexOf(board, 1.0)) then 10.0 else 0.1;
    var addition := if Highest(g.cells) > prevHighest then Highest(g.cells) else 0;
    FitnessValueParts(g, fails, prevHighest, board, addition, v);
    assert board[4] >= 0.0 by {
      assert CellValue(g.cells[4]) >= 0;
    }
    FormulaAtLeast(g.score, board[4], v, g.round, EmptyCount(g.cells), if fails > 0 then fails else 1, addition);
  }

  /** The return expression of Fitness is at least (openSpaces + 1) / failedCheck. */
  lemma FormulaAtLeast(score: int, cell4: real, v: real, round: int, openSpaces: int,
                       failedCheck: int, addition: int)
    requires score >= 0 && cell4 >= 0.0 && v >= 0.0 && round >= 0 && openSpaces >= 0
    requires failedCheck >= 1 && addition >= 0
    ensures FitnessFormula(score, cell4, v, round, openSpaces, failedCheck, addition)
      >= (openSpaces + 1) as real / failedCheck as real > 0.0
  {
    var p := score as real * cell4 * v * round as real;
    var open := (openSpaces + 1) as real;
    NonNegativeProduct(score as real, cell4, v, round as real);
    ScaleAtLeastOne(p + 1.0, open / failedCheck as real);
    assert (p + 1.0) * open / failedCheck as real == (p + 1.0) * (open / failedCheck as real);
  }

  lemma NonNegativeProduct(a: real, b: real, c: real, d: real)
    requires a >= 0.0 && b >= 0.0 && c >= 0.0 && d >= 0.0
    ensures a * b * c * d >= 0.0
  {
    assert a * b >= 0.0;
    assert a * b * c >= 0.0;
  }

  lemma ScaleAtLeastOne(x: real, y: real)
    requires x >= 1.0 && y >= 0.0
    ensures x * y >= y
  {
    assert x * y - y == (x - 1.0) * y;
  }

  /** A board with score 100, a 2 in cell 4, two adjacent 1s, round 5, no illegal move, six
      empty cells and no new highest value scores (100*2*10*5 + 1) * 7 = 70007. */
  lemma FitnessExample()
    ensures WellFormed(ExampleGame()) && FitnessValue(ExampleGame(), 0, 7) == 70007.0
  {
    ExampleParts();
    assert FitnessFormula(100, 2.0, 10.0, 5, 6, 1, 0) == 10001.0 * 7.0;
  }

  lemma ExampleParts()
    ensures WellFormed(ExampleGame())
    ensures FitnessValue(ExampleGame(), 0, 7) == FitnessFormula(100, 2.0, 10.0, 5, 6, 1, 0)
  {
    ExampleHighest();
    ExampleEmptyCount();
    ExampleNeighbours();
    ExampleCellFour();
  }

  lemma ExampleCellFour()
    ensures Encoding(ExampleGame().cells, 0)[4] == 2.0
  {
  }

  lemma ExampleHighest()
    ensures Highest(ExampleGame().cells) == 7
  {
    assert ExampleGame().cells[9] == Occupied(7);
  }

  lemma ExampleEmptyCount()
    ensures EmptyCount(ExampleGame().cells) == 6
  {
    var cells := ExampleGame().cells;
    EmptyCountIsCardinality(cells);
    assert (set i | 0 <= i < 16 && cells[i] == Empty) == {10, 11, 12, 13, 14, 15};
  }

  lemma ExampleNeighbours()
    ensures var board := Encoding(ExampleGame().cells, 0);
      NextToEachOther(board, IndexOf(board, 1.0))
  {
    var board := Encoding(ExampleGame().cells, 0);
    assert board[0] == 1.0 && board[1] == 1.0;
    assert IndexOf(board, 1.0) == 0;
    assert NeighbourHit(board, 0, 1);
  }

  /** The board of FitnessExample. */
  function ExampleGame(): Game
  {
    Game([Occupied(1), Occupied(1), Occupied(3), Occupied(3), Occupied(2), Occupied(3), Occupied(4),
          Occupied(5), Occupied(6), Occupied(7), Empty, Empty, Empty, Empty, Empty, Empty], 100, 5)
  }

  /** The copy Decide and GetBestNetworks sort: every value but the last, the last slot left
      at 0, in descending order. */
  function SortedCopy(values: seq<real>): (r: seq<real>)
    requires |values| >= 1
    ensures |r| == |values|
  {
    SortDesc(values[..|values| - 1] + [0.0])
  }

  /** Array.IndexOf(values, sorted[rank]): the first position holding the rank-th largest value
      of the sorted copy, or -1. */
  function RankIndex(values: seq<real>, rank: nat): (r: int)
    requires |values| >= 1 && rank < |values|
    ensures -1 <= r < |values|
  {
    IndexOf(values, SortedCopy(values)[rank])
  }

  /** A found rank index holds the ranked value and no earlier position does (ties go to the
      lowest index). It is -1 only when the ranked value is the 0 left in the last slot of the
      copy and no output equals 0. */
  lemma RankIndexMeaning(values: seq<real>, rank: nat)
    requires |values| >= 1 && rank < |values|
    ensures var r := RankIndex(values, rank);
      0 <= r ==> (values[r] == SortedCopy(values)[rank] &&
        forall j :: 0 <= j < r ==> values[j] != SortedCopy(values)[rank])
    ensures RankIndex(values, rank) == -1 <==> SortedCopy(values)[rank] == 0.0 && 0.0 !in values
  {
    var copy := values[..|values| - 1] + [0.0];
    var x := SortedCopy(values)[rank];
    SortDescMember(copy, rank);
    if x != 0.0 {
      var j :| 0 <= j < |copy| && copy[j] == x;
      assert values[j] == x;
    }
  }

  /** The last output is picked only when it is 0: any other value in the sorted copy comes
      from an earlier position. */
  lemma RankIndexLast(values: seq<real>, rank: nat)
    requires |values| >= 1 && rank < |values|
    requires RankIndex(values, rank) == |values| - 1
    ensures values[|values| - 1] == 0.0
  {
    RankIndexNonzero(values, rank);
  }

  /** A ranked value other than 0 is found before the last position. */
  lemma RankIndexNonzero(values: seq<real>, rank: nat)
    requires |values| >= 1 && rank < |values|
    ensures SortedCopy(values)[rank] != 0.0 ==> 0 <= RankIndex(values, rank) < |values| - 1
  {
    var n := |values| - 1;
    var copy := values[..n] + [0.0];
    var x := SortedCopy(values)[rank];
    SortDescMember(copy, rank);
    if x != 0.0 {
      var j :| 0 <= j < |copy| && copy[j] == x;
      assert j < n && values[j] == x;
    }
  }

  /** The head of the sorted copy is at least 0 and at least every value but the last one: a
      larger last value is not seen. */
  lemma SortedCopyHead(values: seq<real>)
    requires |values| >= 1
    ensures SortedCopy(values)[0] >= 0.0
    ensures forall j :: 0 <= j < |values| - 1 ==> values[j] <= SortedCopy(values)[0]
  {
    var n := |values| - 1;
    var copy := values[..n] + [0.0];
    SortDescHeadIsMax(copy);
    assert copy[n] == 0.0;
    forall j | 0 <= j < n ensures values[j] <= SortedCopy(values)[0] {
      assert copy[j] == values[j];
    }
  }

  /** Decide on the outputs [0.1, 0.9, 0.4, 0.2]: rank 0 picks output 1, rank 1 picks output 2. */
  lemma DecideExample()
    ensures RankIndex([0.1, 0.9, 0.4, 0.2], 0) == 1
    ensures RankIndex([0.1, 0.9, 0.4, 0.2], 1) == 2
  {
    var values := [0.1, 0.9, 0.4, 0.2];
    ExampleSortedCopy();
    var r0 := RankIndex(values, 0);
    assert values[1] == 0.9 && values[0] != 0.9;
    assert r0 == IndexOf(values, 0.9);
    var r1 := RankIndex(values, 1);
    assert values[2] == 0.4 && values[0] != 0.4 && values[1] != 0.4;
    assert r1 == IndexOf(values, 0.4);
  }

  /** The two largest entries of the sorted copy of the outputs in DecideExample. */
  lemma ExampleSortedCopy()
    ensures SortedCopy([0.1, 0.9, 0.4, 0.2])[0] == 0.9
    ensures SortedCopy([0.1, 0.9, 0.4, 0.2])[1] == 0.4
  {
    var copy := [0.1, 0.9, 0.4, 0.2][..3] + [0.0];
    assert copy == [0.1, 0.9, 0.4, 0.0];
    ExampleSortSteps();
  }

  lemma ExampleSortSteps()
    ensures SortDesc([0.1, 0.9, 0.4, 0.0])[0] == 0.9
    ensures SortDesc([0.1, 0.9, 0.4, 0.0])[1] == 0.4
  {
    var high := [0.9, 0.4, 0.0];
    assert [0.1, 0.9, 0.4, 0.0][1..] == high;
    ExampleSortTail();
    ExampleInsertLow();
  }

  lemma ExampleSortTail()
    ensures SortDesc([0.9, 0.4, 0.0]) == [0.9, 0.4, 0.0]
  {
    var low, high := [0.4, 0.0], [0.9, 0.4, 0.0];
    assert high[1..] == low;
    ExampleSortLow();
    assert InsertDesc(0.9, low) == [0.9] + low;
  }

  lemma ExampleSortLow()
    ensures SortDesc([0.4, 0.0]) == [0.4, 0.0]
  {
    var low := [0.4, 0.0];
    assert low[1..] == [0.0];
    assert SortDesc([0.0]) == [0.0];
    assert InsertDesc(0.4, [0.0]) == [0.4] + [0.0];
  }

  lemma ExampleInsertLow()
    ensures InsertDesc(0.1, [0.9, 0.4, 0.0])[0] == 0.9
    ensures InsertDesc(0.1, [0.9, 0.4, 0.0])[1] == 0.4
  {
    var low, high := [0.4, 0.0], [0.9, 0.4, 0.0];
    assert high[1..] == low && low[1..] == [0.0];
    var r := InsertDesc(0.1, high);
    assert r == [0.9] + InsertDesc(0.1, low);
    assert InsertDesc(0.1, low) == [0.4] + InsertDesc(0.1, [0.0]);
  }

  /** The layer sizes setUpNewNetwork passes: 17 inputs, four hidden layers and 4 outputs. */
  const Shape: seq<nat> := [17, 17, 12, 53, 3, 4]

  /** (int)(_maxPopulation * (_topPercentile / 100.0)), taken with exact arithmetic. */
  function EliteCount(maxPopulation: nat, topPercentile: nat): (k: nat)
    ensures topPercentile <= 100 ==> k <= maxPopulation
  {
    if topPercentile <= 100 then
      assert maxPopulation * topPercentile + maxPopulation * (100 - topPercentile) == maxPopulation * 100;
      maxPopulation * topPercentile / 100
    else
      maxPopulation * topPercentile / 100
  }

  /** Math.Clamp(x, lo, hi). */
  function Clamp(x: int, lo: int, hi: int): int
  {
    if x < lo then lo else if x > hi then hi else x
  }

  /** The counters a tick reads and writes. */
  datatype TickState = TickState(answerIndex: nat, fails: int, gameFailed: bool)

  /** How a tick ends: Halted when the fallback ranks are used up (the tick returns before
      Decide and Fitness), otherwise Stepped with the move Decide raised, if it raised one. */
  datatype Outcome = Halted | Stepped(move: Option<nat>)

  /** Decide: the move is the first output equal to the answerIndex-th value of the sorted
      copy; when there is none the move is Up (0) and the game is marked failed. An inactive
      controller does nothing. */
  function DecideStep(output: seq<real>, s: TickState, active: bool): (r: (TickState, Option<nat>))
    requires |output| == 4 && s.answerIndex < 4
    ensures r.1.Some? ==> r.1.value < 4
    ensures r.1 == None <==> !active
  {
    if !active then (s, None)
    else
      var index := RankIndex(output, s.answerIndex);
      if index < 0 then (TickState(0, 0, true), Some(0))
      else (s, Some(index))
  }

  /** One tick of Update on the outputs of the network: after more than maxFails illegal
      moves the next rank is tried and the count restarts; past rank 3 the tick gives up,
      marking the game failed. */
  function TickStep(output: seq<real>, s: TickState, maxFails: int, active: bool): (r: (TickState, Outcome))
    requires |output| == 4 && s.answerIndex < 4
    ensures r.0.answerIndex < 4
  {
    var escalate := s.fails > maxFails;
    var answerIndex := if escalate then s.answerIndex + 1 else s.answerIndex;
    if answerIndex > 3 then (TickState(0, s.fails, true), Halted)
    else
      var (s1, move) := DecideStep(output, TickState(answerIndex, if escalate then 0 else s.fails, s.gameFailed), active);
      (s1, Stepped(move))
  }

  /** A tick halts exactly when the illegal-move count is over the limit at rank 3; it then
      resets the rank and marks the game failed, keeping the count. */
  lemma TickHaltsOnlyAtLastRank(output: seq<real>, s: TickState, maxFails: int, active: bool)
    requires |output| == 4 && s.answerIndex < 4
    ensures var (s1, outcome) := TickStep(output, s, maxFails, active);
      (outcome == Halted <==> s.fails > maxFails && s.answerIndex == 3) &&
      (outcome == Halted ==> s1 == TickState(0, s.fails, true))
  {
  }

  /** A move is the first output holding the value of the rank used, which is one past the
      old rank after too many illegal moves; or it is the fallback Up when no output holds
      that value, which marks the game failed and clears the counters. */
  lemma TickMoveMeaning(output: seq<real>, s: TickState, maxFails: int)
    requires |output| == 4 && s.answerIndex < 4
    requires TickStep(output, s, maxFails, true).1 != Halted
    ensures var (s1, outcome) := TickStep(output, s, maxFails, true);
      var rank := if s.fails > maxFails then s.answerIndex + 1 else s.answerIndex;
      rank < 4 && outcome.move.Some? &&
      var m := outcome.move.value;
      (RankIndex(output, rank) >= 0 ==>
        m == RankIndex(output, rank) && output[m] == SortedCopy(output)[rank] &&
        s1 == TickState(rank, if s.fails > maxFails then 0 else s.fails, s.gameFailed)) &&
      (RankIndex(output, rank) < 0 ==>
        m == 0 && s1 == TickState(0, 0, true) && SortedCopy(output)[rank] == 0.0 && 0.0 !in output)
  {
    var rank := if s.fails > maxFails then s.answerIndex + 1 else s.answerIndex;
    RankIndexMeaning(output, rank);
  }

  /** The last output (Right) is chosen only when it is exactly 0: the sorted copy never
      holds its value otherwise. */
  lemma RightNeedsZero(output: seq<real>, s: TickState, maxFails: int)
    requires |output| == 4 && s.answerIndex < 4
    requires TickStep(output, s, maxFails, true).1 == Stepped(Some(3))
    ensures output[3] == 0.0
  {
    var rank := if s.fails > maxFails then s.answerIndex + 1 else s.answerIndex;
    RankIndexLast(output, rank);
  }

  /** After a tick that did not halt, the illegal-move count is within the limit again. */
  lemma StepKeepsFailsInLimit(output: seq<real>, s: TickState, maxFails: int, active: bool)
    requires |output| == 4 && s.answerIndex < 4 && maxFails >= 0
    requires TickStep(output, s, maxFails, active).1 != Halted
    ensures TickStep(output, s, maxFails, active).0.fails <= maxFails
  {
  }

  /** The slots of the elites: entry i is Array.IndexOf(networkFitness, sortedArray[i]). */
  function EliteIndices(fitness: seq<real>, k: nat): (r: seq<int>)
    requires |fitness| >= 1 && k <= |fitness|
    ensures |r| == k
    ensures forall i :: 0 <= i < k ==> -1 <= r[i] < |fitness|
  {
    seq(k, i requires 0 <= i < k => RankIndex(fitness, i))
  }

  /** The networks GetBestNetworks returns when every elite slot is found. */
  function Elites<T>(slots: seq<T>, fitness: seq<real>, k: nat): (r: seq<T>)
    requires |fitness| >= 1 && k <= |fitness| && |slots| == |fitness|
    requires forall i :: 0 <= i < k ==> EliteIndices(fitness, k)[i] >= 0
    ensures |r| == k
  {
    seq(k, i requires 0 <= i < k => slots[EliteIndices(fitness, k)[i]])
  }

  /** The elites are the slots of the highest fitness values of the sorted copy, in rank
      order, and a slot of higher fitness comes first. Two equal values give the same slot
      twice. */
  lemma ElitesAreRanked<T>(slots: seq<T>, fitness: seq<real>, k: nat)
    requires |fitness| >= 1 && k <= |fitness| && |slots| == |fitness|
    requires forall i :: 0 <= i < k ==> EliteIndices(fitness, k)[i] >= 0
    ensures forall i :: 0 <= i < k ==>
      var j := EliteIndices(fitness, k)[i];
      Elites(slots, fitness, k)[i] == slots[j] && fitness[j] == SortedCopy(fitness)[i]
    ensures forall i, l :: 0 <= i < l < k ==>
      fitness[EliteIndices(fitness, k)[i]] >= fitness[EliteIndices(fitness, k)[l]]
  {
    forall i | 0 <= i < k
      ensures fitness[EliteIndices(fitness, k)[i]] == SortedCopy(fitness)[i]
    {
      RankIndexMeaning(fitness, i);
    }
  }

  /** The new generation: the elites first, then for every further slot the first pick on
      even slots and the second on odd ones. */
  function Refilled<T>(elites: seq<T>, size: nat, picks: nat -> (nat, nat)): (r: seq<T>)
    requires |elites| <= size
    requires forall i :: |elites| <= i < size ==> picks(i).0 < |elites| && picks(i).1 < |elites|
    ensures |r| == size
  {
    seq(size, i requires 0 <= i < size =>
      if i < |elites| then elites[i] else elites[if i % 2 == 0 then picks(i).0 else picks(i).1])
  }

  /** The picks rng.Next(0, k) settles on for the slots past the elites: two different
      elites. With fewer than two elites the re-roll loop never settles. */
  predicate PicksFit(picks: nat -> (nat, nat), k: nat, size: nat)
  {
    k >= 2 ==> forall i :: k <= i < size ==> picks(i).0 < k && picks(i).1 < k && picks(i).0 != picks(i).1
  }

  /** How OnGameStart ends: the game goes on, training stops at the last generation, an
      exception is thrown (an elite missing or null where it is used), or the re-roll loop
      never ends. */
  datatype StartResult = Continued | Stopped | Crashed | Hung

  /** The save objects whose unchanging flag the refill clears: the first picks of the even
      slots. */
  function Cleared<T>(elites: seq<T>, size: nat, picks: nat -> (nat, nat)): set<T>
    requires forall i :: |elites| <= i < size ==> picks(i).0 < |elites|
  {
    set i | |elites| <= i < size && i % 2 == 0 :: elites[picks(i).0]
  }

  /** One more slot of the refill adds the first pick of an even slot to the cleared saves. */
  lemma ClearedStep<T>(elites: seq<T>, i: nat, picks: nat -> (nat, nat))
    requires |elites| <= i && forall j :: |elites| <= j < i + 1 ==> picks(j).0 < |elites|
    ensures Cleared(elites, i + 1, picks) ==
      Cleared(elites, i, picks) + (if i % 2 == 0 then {elites[picks(i).0]} else {})
  {
  }

  /** The saves cleared up to slot i are among those cleared up to slot j >= i. */
  lemma ClearedGrows<T>(elites: seq<T>, i: nat, j: nat, picks: nat -> (nat, nat))
    requires |elites| <= i <= j && forall l :: |elites| <= l < j ==> picks(l).0 < |elites|
    ensures Cleared(elites, i, picks) <= Cleared(elites, j, picks)
  {
  }

  /** The result of OnGameStart once every member has played: an elite slot that is not
      found, no elite or a null best network throws; then training stops after generation
      stopAtGen; with one elite the re-roll loop never ends; a null first pick of an even
      slot throws; otherwise the new generation is formed. */
  function StartOutcome(fitness: seq<real>, slots: seq<NeuralNetworkSave?>, k: nat, gen: int, stopAtGen: int,
                        size: nat, picks: nat -> (nat, nat)): StartResult
    requires |fitness| >= 1 && k <= |fitness| && |slots| == |fitness| && k <= size
    requires PicksFit(picks, k, size)
  {
    if exists i :: 0 <= i < k && EliteIndices(fitness, k)[i] < 0 then Crashed
    else
      var elites := Elites(slots, fitness, k);
      if k == 0 || elites[0] == null then Crashed
      else if gen == stopAtGen + 1 then Stopped
      else if k < 2 && k < size then Hung
      else if null in Cleared(elites, size, picks) then Crashed
      else Continued
  }

  /** Every network of the new generation is one of the elites, and the elites keep their
      places. */
  lemma RefilledFromElites<T>(elites: seq<T>, size: nat, picks: nat -> (nat, nat), i: nat)
    requires |elites| <= size && (|elites| >= 2 || |elites| == size) && PicksFit(picks, |elites|, size)
    requires i < size
    ensures var r := Refilled(elites, size, picks);
      r[i] in elites && (i < |elites| ==> r[i] == elites[i])
  {
  }

  /** A network of the sizes Shape reads the 17 inputs and has 4 outputs. */
  lemma ShapeForward(ps: seq<LayerParams>, exp: ExpFn, x: seq<real>)
    requires Chained(ps, Shape) && |x| == 17
    ensures Feeds(ps, 17) && |Forward(ps, exp, x)| == 4
  {
    ChainedFeeds(ps, Shape, 17);
    assert ps[4].numOutputs == Shape[5];
  }

  /** setUpNewNetwork: a network of the sizes Shape, every layer using the configured
      activation. */
  method NewNetwork(activationType: ActivationType, draws: (nat, nat) -> real) returns (net: NeuralNetwork)
    ensures fresh(net) && fresh(net.Repr) && net.Valid() && net.layerSizes[..] == Shape
    ensures net.Params() == WithActivations(InitialParams(Shape, draws), GetActivationFromType(activationType),
                                            GetActivationFromType(activationType))
  {
    var sizes := new nat[6];
    sizes[0], sizes[1], sizes[2], sizes[3], sizes[4], sizes[5] := 17, 17, 12, 53, 3, 4;
    assert sizes[..] == Shape;
    net := new NeuralNetwork(sizes, draws);
    net.SetActivationFunction(GetActivationFromType(activationType));
  }

  /** The training controller. The inspector settings are constants; the counter of network
      ids is the static NeuralNetwork.startID. */
  class NEATNetwork {
    const networkActive: bool
    const maxPopulation: nat
    const topPercentile: nat
    const maxFails: int
    const stopAtGen: int
    const activationType: ActivationType
    const ids: NetworkIds
    const networkFitness: array<real>
    var generationNetworks: array<NeuralNetworkSave?>
    var test: NeuralNetwork
    var fails: int
    var gen: nat
    var pop: nat
    var gameStarted: bool
    var gameFailed: bool
    var openSpaces: int
    var answerIndex: nat
    var prevHighest: int
    var currentHighest: int

    /** The settings the controller relies on, one slot per member of the population, a
        population index in range once a game has started, and the running network of the
        fixed shape. */
    ghost predicate Valid()
      reads this`generationNetworks, this`test, this`answerIndex, this`pop, this`gameStarted
      reads test.layers, test.layerSizes
    {
      2 <= maxPopulation && topPercentile <= 100 &&
      networkFitness.Length == maxPopulation && generationNetworks.Length == maxPopulation &&
      answerIndex < 4 && pop <= maxPopulation && (gameStarted ==> 1 <= pop) &&
      test.Valid() && test.layerSizes[..] == Shape && networkFitness !in test.Repr
    }

    /** Start: a fresh network of the configured activation, empty slots and zero fitness. */
    constructor (networkActive: bool, maxPopulation: nat, topPercentile: nat, maxFails: int, stopAtGen: int,
                 activationType: ActivationType, ids: NetworkIds, draws: (nat, nat) -> real)
      requires 2 <= maxPopulation && topPercentile <= 100
      ensures Valid() && fresh(test) && fresh(test.Repr)
      ensures test.Params() == WithActivations(InitialParams(Shape, draws), GetActivationFromType(activationType),
                                               GetActivationFromType(activationType))
      ensures this.networkActive == networkActive && this.maxPopulation == maxPopulation
      ensures this.topPercentile == topPercentile && this.maxFails == maxFails && this.stopAtGen == stopAtGen
      ensures this.activationType == activationType && this.ids == ids
      ensures fresh(networkFitness) && networkFitness[..] == seq(maxPopulation, _ => 0.0)
      ensures fresh(generationNetworks) && generationNetworks[..] == seq(maxPopulation, _ => null)
      ensures fails == 0 && gen == 0 && pop == 0 && !gameStarted && !gameFailed
      ensures openSpaces == 14 && answerIndex == 0 && prevHighest == 0 && currentHighest == 0
    {
      this.networkActive := networkActive;
      this.maxPopulation := maxPopulation;
      this.topPercentile := topPercentile;
      this.maxFails := maxFails;
      this.stopAtGen := stopAtGen;
      this.activationType := activationType;
      this.ids := ids;
      fails, gen, pop, gameStarted, gameFailed := 0, 0, 0, false, false;
      openSpaces, answerIndex, prevHighest, currentHighest := 14, 0, 0, 0;
      var net := NewNetwork(activationType, draws);
      test := net;
      generationNetworks := new NeuralNetworkSave?[maxPopulation](_ => null);
      networkFitness := new real[maxPopulation](_ => 0.0);
    }

    /** getHighestValueInBoard: the loop keeps the largest block value seen, from 0. */
    method GetHighestValueInBoard(game: Game) returns (highest: int)
      ensures highest == Highest(game.cells)
    {
      highest := 0;
      var i := 0;
      while i < |game.cells|
        invariant 0 <= i <= |game.cells|
        invariant highest == Highest(game.cells[..i])
      {
        assert game.cells[..i + 1][..i] == game.cells[..i];
        if game.cells[i].Occupied? && game.cells[i].value > highest {
          highest := game.cells[i].value;
        }
        i := i + 1;
      }
      assert game.cells[..i] == game.cells;
    }

    /** BoardToArray: the network input for the board, counting the empty cells into
        openSpaces on the way. */
    method BoardToArray(game: Game) returns (newBoard: array<real>)
      requires WellFormed(game)
      modifies this`openSpaces
      ensures fresh(newBoard) && newBoard[..] == Encoding(game.cells, fails)
      ensures openSpaces == EmptyCount(game.cells)
    {
      newBoard := new real[17];
      openSpaces := 0;
      var highest := GetHighestValueInBoard(game);
      var i := 0;
      while i < 16
        invariant 0 <= i <= 16
        invariant openSpaces == EmptyCount(game.cells[..i])
        invariant forall j :: 0 <= j < i ==> newBoard[j] == CellValue(game.cells[j]) as real
      {
        assert game.cells[..i + 1][..i] == game.cells[..i];
        var valueAtNode := 0;
        if game.cells[i].Occupied? {
          valueAtNode := game.cells[i].value;
        } else {
          openSpaces := openSpaces + 1;
        }
        newBoard[i] := valueAtNode as real;
        i := i + 1;
      }
      newBoard[16] := fails as real;
      assert game.cells[..16] == game.cells;
      assert forall j :: 0 <= j < 17 ==> newBoard[j] == Encoding(game.cells, fails)[j];
    }

    /** Fitness: the highest value reached so far is raised (when beaten, the new value is
        added as a bonus), the board is encoded again, and the neighbour loop stops at the
        first offset that finds a 1 next to the first cell holding 1. */
    method Fitness(game: Game) returns (f: real)
      requires WellFormed(game)
      modifies this`prevHighest, this`openSpaces
      ensures f == FitnessValue(game, fails, old(prevHighest))
      ensures prevHighest == if Highest(game.cells) > old(prevHighest) then Highest(game.cells) else old(prevHighest)
      ensures openSpaces == EmptyCount(game.cells)
    {
      ghost var previous := prevHighest;
      var addition := 0;
      var highest := GetHighestValueInBoard(game);
      if highest > prevHighest {
        prevHighest := GetHighestValueInBoard(game);
        addition := prevHighest;
      }
      var failedCheck := if fails > 0 then fails else 1;
      var board := BoardToArray(game);
      var highestBlockIndex := IndexOf(board[..], 1.0);
      var nextToEachOther := false;
      var i := 0;
      while i < |CheckIndex|
        invariant 0 <= i <= 4 && !nextToEachOther
        invariant forall k :: 0 <= k < i ==> !NeighbourHit(board[..], highestBlockIndex, k)
      {
        var checkBlock := highestBlockIndex + CheckIndex[i];
        if Clamp(checkBlock, 0, 15) == checkBlock {
          if i < 2 {
            var row := RowOf(highestBlockIndex);
            if row == RowOf(checkBlock) {
              if board[checkBlock] == 1.0 {
                assert NeighbourHit(board[..], highestBlockIndex, i);
                nextToEachOther := true;
                break;
              }
            }
          } else {
            if board[checkBlock] == 1.0 {
              assert NeighbourHit(board[..], highestBlockIndex, i);
              nextToEachOther := true;
              break;
            }
          }
        }
        i := i + 1;
      }
      assert nextToEachOther == NextToEachOther(board[..], highestBlockIndex);
      var valuesNextAreGood := if nextToEachOther then 10.0 else 0.1;
      f := FitnessFormula(game.score, board[4], valuesNextAreGood, game.round, openSpaces, failedCheck, addition);
      FitnessValueParts(game, fails, previous, board[..], addition, valuesNextAreGood);
    }

    /** Decide: the move of rank answerIndex among the outputs, as DecideStep states. */
    method Decide(output: array<real>) returns (move: Option<nat>)
      requires output.Length == 4 && answerIndex < 4
      modifies this`answerIndex, this`fails, this`gameFailed
      ensures (TickState(answerIndex, fails, gameFailed), move) ==
        DecideStep(output[..], old(TickState(answerIndex, fails, gameFailed)), networkActive)
    {
      if !networkActive {
        return None;
      }
      var propOutput := new real[output.Length](_ => 0.0);
      ArrayCopy(output, propOutput, output.Length - 1);
      assert propOutput[..] == output[..output.Length - 1] + [0.0];
      var sorted := SortDesc(propOutput[..]);
      var prediction := IndexOf(output[..], sorted[answerIndex]);
      if prediction < 0 {
        prediction := 0;
        answerIndex := 0;
        fails := 0;
        gameFailed := true;
      }
      move := Some(prediction);
    }

    /** test.Run(BoardToArray()): the outputs of the running network on the encoded board. */
    method RunOnBoard(game: Game, exp: ExpFn) returns (output: array<real>)
      requires Valid() && WellFormed(game)
      modifies this`openSpaces
      ensures Valid() && openSpaces == EmptyCount(game.cells)
      ensures Feeds(test.Params(), 17) && output.Length == 4
      ensures output[..] == Forward(test.Params(), exp, Encoding(game.cells, fails))
    {
      assert test.layerSizes[0] == Shape[0];
      var net := test;
      ghost var ps := net.Params();
      var board := BoardToArray(game);
      assert net.Valid() && net.Params() == ps && net == test;
      net.ValidChain();
      ShapeForward(ps, exp, board[..]);
      var prediction, out := net.Run(board, exp);
      output := out;
    }

    /** The first half of a tick of Update while a game runs: the network's outputs on the
        encoded board, the move to the next rank after too many illegal moves, and Decide.
        The move goes to the game, whose reaction reaches the controller through the event
        handlers before FinishTick. */
    method Tick(game: Game, exp: ExpFn) returns (outcome: Outcome)
      requires Valid() && gameStarted && WellFormed(game)
      modifies this`openSpaces, this`answerIndex, this`fails, this`gameFailed
      ensures Valid() && openSpaces == EmptyCount(game.cells)
      ensures Feeds(test.Params(), 17) && |Forward(test.Params(), exp, Encoding(game.cells, old(fails)))| == 4
      ensures (TickState(answerIndex, fails, gameFailed), outcome) ==
        TickStep(Forward(test.Params(), exp, Encoding(game.cells, old(fails))),
                 old(TickState(answerIndex, fails, gameFailed)), maxFails, networkActive)
    {
      ghost var before := TickState(answerIndex, fails, gameFailed);
      var output := RunOnBoard(game, exp);
      ghost var ps := test.Params();
      ghost var out := output[..];
      assert out == Forward(ps, exp, Encoding(game.cells, before.fails));
      outcome := Respond(output);
      assert test.Params() == ps && output[..] == out;
    }

    /** The rest of the tick on the outputs: the fallback to the next rank, then Decide. */
    method Respond(output: array<real>) returns (outcome: Outcome)
      requires Valid() && output.Length == 4
      modifies this`answerIndex, this`fails, this`gameFailed
      ensures Valid()
      ensures (TickState(answerIndex, fails, gameFailed), outcome) ==
        TickStep(output[..], old(TickState(answerIndex, fails, gameFailed)), maxFails, networkActive)
    {
      if fails > maxFails {
        answerIndex := answerIndex + 1;
        if answerIndex > 3 {
          answerIndex := 0;
          gameFailed := true;
          return Halted;
        }
        fails := 0;
      }
      var move := Decide(output);
      return Stepped(move);
    }

    /** The second half of the tick: the move's fitness is added to the slot of the current
        member; when the game is over, the network is saved into that slot, the total is
        divided by the number of rounds, the next network is set up (a new random one in
        generation 0, otherwise a reload of the save) and the game is restarted. The reload
        is never mutated: the save it comes from was just made, so it is unchanging. */
    method FinishTick(game: Game, draws: (nat, nat) -> real) returns (restart: bool)
      requires Valid() && gameStarted && WellFormed(game)
      requires gameFailed ==> game.round != 0
      modifies this`prevHighest, this`openSpaces, this`gameFailed, this`test, this`currentHighest
      modifies networkFitness, generationNetworks, ids
      ensures Valid() && restart == old(gameFailed) && !gameFailed
      ensures openSpaces == EmptyCount(game.cells)
      ensures prevHighest == if Highest(game.cells) > old(prevHighest) then Highest(game.cells) else old(prevHighest)
      ensures var total := old(networkFitness[pop - 1]) + FitnessValue(game, fails, old(prevHighest));
        networkFitness[..] == old(networkFitness[..])[pop - 1 := if restart then total / game.round as real else total]
      ensures !restart ==> (test == old(test) && generationNetworks[..] == old(generationNetworks[..]) &&
                            currentHighest == old(currentHighest) && ids.startID == old(ids.startID))
      ensures restart ==>
        var save := generationNetworks[pop - 1];
        generationNetworks[..] == old(generationNetworks[..])[pop - 1 := save] &&
        save != null && fresh(save) && save.Valid() && save.unchanging && save.networkId == old(ids.startID) &&
        save.layerSizes == old(test.layerSizes) && save.Contents() == SavedOf(old(test.Params())) &&
        ids.startID == old(ids.startID) + 1
      ensures restart ==> fresh(test) && fresh(test.Repr)
      ensures restart && gen == 0 ==>
        test.Params() == WithActivations(InitialParams(Shape, draws), GetActivationFromType(activationType),
                                         GetActivationFromType(activationType))
      ensures restart && gen > 0 ==> test.Params() == old(test.Params())
      ensures restart ==>
        currentHighest == if Highest(game.cells) > old(currentHighest) then Highest(game.cells) else old(currentHighest)
    {
      ghost var ps := test.Params();
      ghost var net := test;
      ghost var slots := generationNetworks[..];
      ghost var startID := ids.startID;
      ghost var fitness := networkFitness[..];
      ghost var total := networkFitness[pop - 1] + FitnessValue(game, fails, prevHighest);
      AddFitness(game);
      assert test == net && test.Params() == ps && generationNetworks[..] == slots && ids.startID == startID;
      assert networkFitness[..] == fitness[pop - 1 := total];
      restart := false;
      if gameFailed {
        EndEpisode(game, draws);
        restart := true;
        assert networkFitness[..] == fitness[pop - 1 := total / game.round as real];
      }
    }

    /** The end of an episode inside the tick: save, average over the rounds, next network,
        generation highest, restart. */
    method EndEpisode(game: Game, draws: (nat, nat) -> real)
      requires Valid() && gameStarted && WellFormed(game) && game.round != 0
      modifies this`gameFailed, this`test, this`currentHighest, networkFitness, generationNetworks, ids
      ensures Valid() && !gameFailed
      ensures networkFitness[..] == old(networkFitness[..])[pop - 1 := old(networkFitness[pop - 1]) / game.round as real]
      ensures var save := generationNetworks[pop - 1];
        generationNetworks[..] == old(generationNetworks[..])[pop - 1 := save] &&
        save != null && fresh(save) && save.Valid() && save.unchanging && save.networkId == old(ids.startID) &&
        save.layerSizes == old(test.layerSizes) && save.Contents() == SavedOf(old(test.Params())) &&
        ids.startID == old(ids.startID) + 1
      ensures fresh(test) && fresh(test.Repr)
      ensures gen == 0 ==>
        test.Params() == WithActivations(InitialParams(Shape, draws), GetActivationFromType(activationType),
                                         GetActivationFromType(activationType))
      ensures gen > 0 ==> test.Params() == old(test.Params())
      ensures currentHighest == if Highest(game.cells) > old(currentHighest) then Highest(game.cells) else old(currentHighest)
    {
      ghost var ps := test.Params();
      var save := SaveAndAverage(game);
      assert test.Params() == ps;
      ghost var contents := save.Contents();
      ghost var slots := generationNetworks[..];
      ghost var fitness := networkFitness[..];
      ghost var startID := ids.startID;
      NextNetwork(save, game, draws);
      assert save.Contents() == contents && generationNetworks[..] == slots && networkFitness[..] == fitness;
      assert ids.startID == startID;
    }

    /** The next network of the episode, then the generation highest. */
    method NextNetwork(save: NeuralNetworkSave, game: Game, draws: (nat, nat) -> real)
      requires Valid() && gameStarted
      requires save.Valid() && save.unchanging && save.layerSizes == test.layerSizes
      requires save.Contents() == SavedOf(test.Params())
      modifies this`test, this`currentHighest
      ensures Valid() && fresh(test) && fresh(test.Repr)
      ensures gen == 0 ==>
        test.Params() == WithActivations(InitialParams(Shape, draws), GetActivationFromType(activationType),
                                         GetActivationFromType(activationType))
      ensures gen > 0 ==> test.Params() == old(test.Params())
      ensures currentHighest == if Highest(game.cells) > old(currentHighest) then Highest(game.cells) else old(currentHighest)
    {
      Renew(save, draws);
      ghost var next := test;
      ghost var nextParams := test.Params();
      UpdateCurrentHighest(game);
      assert test == next && test.Params() == nextParams;
    }

    /** gameFailed = false; the save into the slot; the total divided by the rounds. */
    method SaveAndAverage(game: Game) returns (save: NeuralNetworkSave)
      requires Valid() && gameStarted && game.round != 0
      modifies this`gameFailed, networkFitness, generationNetworks, ids
      ensures Valid() && !gameFailed
      ensures networkFitness[..] == old(networkFitness[..])[pop - 1 := old(networkFitness[pop - 1]) / game.round as real]
      ensures generationNetworks[..] == old(generationNetworks[..])[pop - 1 := save]
      ensures fresh(save) && save.Valid() && save.unchanging && save.networkId == old(ids.startID)
      ensures save.layerSizes == test.layerSizes && save.Contents() == SavedOf(test.Params())
      ensures ids.startID == old(ids.startID) + 1
    {
      gameFailed := false;
      var currentPopulation := pop - 1;
      save := SaveInto(currentPopulation);
      ghost var contents := save.Contents();
      networkFitness[currentPopulation] := networkFitness[currentPopulation] / game.round as real;
      assert save.Contents() == contents;
    }

    /** if (getHighestValueInBoard() > currentHighest) currentHighest = getHighestValueInBoard(). */
    method UpdateCurrentHighest(game: Game)
      requires Valid()
      modifies this`currentHighest
      ensures Valid()
      ensures currentHighest == if Highest(game.cells) > old(currentHighest) then Highest(game.cells) else old(currentHighest)
    {
      var highest := GetHighestValueInBoard(game);
      if highest > currentHighest {
        currentHighest := GetHighestValueInBoard(game);
      }
    }

    /** networkFitness[pop - 1] += Fitness(). */
    method AddFitness(game: Game)
      requires Valid() && gameStarted && WellFormed(game)
      modifies this`prevHighest, this`openSpaces, networkFitness
      ensures Valid() && openSpaces == EmptyCount(game.cells)
      ensures prevHighest == if Highest(game.cells) > old(prevHighest) then Highest(game.cells) else old(prevHighest)
      ensures networkFitness[..] ==
        old(networkFitness[..])[pop - 1 := old(networkFitness[pop - 1]) + FitnessValue(game, fails, old(prevHighest))]
    {
      var currentPopulation := pop - 1;
      var fitness := Fitness(game);
      networkFitness[currentPopulation] := networkFitness[currentPopulation] + fitness;
    }

    /** GenerationNetworks[slot] = test.SaveNetwork(). */
    method SaveInto(slot: nat) returns (save: NeuralNetworkSave)
      requires Valid() && slot < maxPopulation
      modifies generationNetworks, ids
      ensures Valid() && generationNetworks[..] == old(generationNetworks[..])[slot := save]
      ensures fresh(save) && save.Valid() && save.unchanging && save.networkId == old(ids.startID)
      ensures save.Repr == test.Repr && save.layerSizes == test.layerSizes && save.Contents() == SavedOf(test.Params())
      ensures ids.startID == old(ids.startID) + 1
    {
      save := test.SaveNetwork(ids);
      generationNetworks[slot] := save;
    }

    /** The next network: setUpNewNetwork in generation 0, otherwise the reload of the save
        just made, which the Mutate call skips since the save is unchanging. */
    method Renew(save: NeuralNetworkSave, draws: (nat, nat) -> real)
      requires Valid() && gameStarted
      requires save.Valid() && save.unchanging && save.layerSizes == test.layerSizes
      requires save.Contents() == SavedOf(test.Params())
      modifies this`test
      ensures Valid() && fresh(test) && fresh(test.Repr)
      ensures gen == 0 ==>
        test.Params() == WithActivations(InitialParams(Shape, draws), GetActivationFromType(activationType),
                                         GetActivationFromType(activationType))
      ensures gen > 0 ==> test.Params() == old(test.Params())
    {
      if gen == 0 {
        test := NewNetwork(activationType, draws);
      } else {
        test.ValidChain();
        LoadOfSaveIsIdentity(test.Params(), Shape, draws);
        test := test.LoadNewNetwork(save, draws);
        if !save.unchanging {
          assert false;
        }
      }
    }

    /** OnGameFail: the game is over. */
    method OnGameFail()
      requires Valid()
      modifies this`gameFailed
      ensures Valid() && gameFailed
    {
      gameFailed := true;
    }

    /** OnIllegalMove: one more move the game refused. */
    method OnIllegalMove()
      requires Valid()
      modifies this`fails
      ensures Valid() && fails == old(fails) + 1
    {
      fails := fails + 1;
    }

    /** OnBoardUpdate: a move was made, so the next one starts again from rank 0. */
    method OnBoardUpdate()
      requires Valid()
      modifies this`answerIndex
      ensures Valid() && answerIndex == 0
    {
      answerIndex := 0;
    }

    /** GetBestNetworks: the average fitness, the head of the sorted copy and the networks of
        the elite slots; ok is false when Array.IndexOf finds no slot for some elite, where
        the source throws. */
    method GetBestNetworks() returns (ok: bool, networks: seq<NeuralNetworkSave?>, bestFitness: real,
                                      averageFitness: real)
      requires Valid()
      ensures averageFitness == Sum(networkFitness[..]) / maxPopulation as real
      ensures bestFitness == SortedCopy(networkFitness[..])[0]
      ensures var k := EliteCount(maxPopulation, topPercentile);
        ok <==> forall i :: 0 <= i < k ==> EliteIndices(networkFitness[..], k)[i] >= 0
      ensures ok ==> networks == Elites(generationNetworks[..], networkFitness[..], EliteCount(maxPopulation, topPercentile))
    {
      var arraySize := EliteCount(maxPopulation, topPercentile);
      var fitness := networkFitness[..];
      var average := 0.0;
      var i := 0;
      while i < networkFitness.Length
        invariant 0 <= i <= networkFitness.Length
        invariant average == Sum(fitness[..i])
      {
        assert fitness[..i + 1][..i] == fitness[..i];
        average := average + networkFitness[i];
        i := i + 1;
      }
      assert fitness[..i] == fitness;
      average := average / networkFitness.Length as real;
      var sortedArray := new real[networkFitness.Length](_ => 0.0);
      ArrayCopy(networkFitness, sortedArray, networkFitness.Length - 1);
      assert sortedArray[..] == fitness[..|fitness| - 1] + [0.0];
      var sorted := SortDesc(sortedArray[..]);
      ghost var indices := EliteIndices(fitness, arraySize);
      networks := [];
      i := 0;
      while i < arraySize
        invariant 0 <= i <= arraySize && |networks| == i
        invariant forall j :: 0 <= j < i ==> indices[j] >= 0 && networks[j] == generationNetworks[indices[j]]
      {
        var index := IndexOf(fitness, sorted[i]);
        assert index == indices[i];
        if index < 0 {
          return false, networks, sorted[0], average;
        }
        networks := networks + [generationNetworks[index]];
        i := i + 1;
      }
      ok, bestFitness, averageFitness := true, sorted[0], average;
    }

    /** OnGameStart: the next member of the population plays; once all have played, the
        next generation is formed from the elites, or training stops after generation
        stopAtGen. The picks are the settled (randNet1, randNet2) of each further slot. */
    method OnGameStart(picks: nat -> (nat, nat)) returns (result: StartResult)
      requires Valid()
      requires PicksFit(picks, EliteCount(maxPopulation, topPercentile), maxPopulation)
      modifies this`gameStarted, this`fails, this`gen, this`pop, this`currentHighest, this`generationNetworks
      modifies set j | 0 <= j < generationNetworks.Length && generationNetworks[j] != null :: generationNetworks[j]
      ensures Valid() && fails == 0
      ensures old(pop) < maxPopulation ==>
        result == Continued && gameStarted && pop == old(pop) + 1 && gen == old(gen) &&
        generationNetworks == old(generationNetworks) && currentHighest == old(currentHighest) &&
        forall j :: 0 <= j < generationNetworks.Length && generationNetworks[j] != null ==>
          unchanged(generationNetworks[j])
      ensures old(pop) >= maxPopulation ==>
        gen == old(gen) + 1 && pop == 1 &&
        result == StartOutcome(networkFitness[..], old(generationNetworks[..]), EliteCount(maxPopulation, topPercentile),
                               gen, stopAtGen, maxPopulation, picks) &&
        (result == Crashed || result == Continued ==> gameStarted) &&
        (result == Stopped ==>
           !gameStarted && generationNetworks == old(generationNetworks) && currentHighest == old(currentHighest))
      ensures old(pop) >= maxPopulation && (result == Stopped || result == Hung) ==>
        var slots := old(generationNetworks);
        forall j :: 0 <= j < slots.Length && slots[j] != null ==> unchanged(slots[j])
      ensures old(pop) >= maxPopulation && result == Continued ==>
        var elites := Elites(old(generationNetworks[..]), networkFitness[..], EliteCount(maxPopulation, topPercentile));
        currentHighest == 0 && fresh(generationNetworks) &&
        generationNetworks[..] == Refilled(elites, maxPopulation, picks) &&
        forall j :: 0 <= j < |elites| && elites[j] != null ==>
          elites[j].unchanging == (elites[j] !in Cleared(elites, maxPopulation, picks) && old(elites[j].unchanging))
    {
      gameStarted := true;
      if pop >= maxPopulation {
        result := NextGeneration(picks);
      } else {
        if generationNetworks.Length > 1 {
          pop := pop + 1;
          fails := 0;
        }
        result := Continued;
      }
    }

    /** The branch of OnGameStart once every member has played. */
    method NextGeneration(picks: nat -> (nat, nat)) returns (result: StartResult)
      requires Valid() && pop >= maxPopulation && gameStarted
      requires PicksFit(picks, EliteCount(maxPopulation, topPercentile), maxPopulation)
      modifies this`gameStarted, this`fails, this`gen, this`pop, this`currentHighest, this`generationNetworks
      modifies set j | 0 <= j < generationNetworks.Length && generationNetworks[j] != null :: generationNetworks[j]
      ensures Valid() && fails == 0 && gen == old(gen) + 1 && pop == 1
      ensures result == StartOutcome(networkFitness[..], old(generationNetworks[..]), EliteCount(maxPopulation, topPercentile),
                                     gen, stopAtGen, maxPopulation, picks)
      ensures result == Crashed || result == Continued ==> gameStarted
      ensures result == Stopped ==>
        !gameStarted && generationNetworks == old(generationNetworks) && currentHighest == old(currentHighest)
      ensures result == Stopped || result == Hung ==>
        var slots := old(generationNetworks);
        forall j :: 0 <= j < slots.Length && slots[j] != null ==> unchanged(slots[j])
      ensures result == Continued ==>
        var elites := Elites(old(generationNetworks[..]), networkFitness[..], EliteCount(maxPopulation, topPercentile));
        currentHighest == 0 && fresh(generationNetworks) &&
        generationNetworks[..] == Refilled(elites, maxPopulation, picks) &&
        forall j :: 0 <= j < |elites| && elites[j] != null ==>
          elites[j].unchanging == (elites[j] !in Cleared(elites, maxPopulation, picks) && old(elites[j].unchanging))
    {
      ghost var slots := generationNetworks[..];
      ghost var fitness := networkFitness[..];
      ghost var k := EliteCount(maxPopulation, topPercentile);
      NextCounters();
      var ok, bestNetworks, bestFitness, averageFitness := GetBestNetworks();
      assert networkFitness[..] == fitness && generationNetworks[..] == slots;
      if !ok {
        return Crashed;
      }
      assert bestNetworks == Elites(slots, fitness, k) && |bestNetworks| == k <= maxPopulation;
      result := Conclude(bestNetworks, picks);
      assert networkFitness[..] == fitness;
      assert result == StartOutcome(fitness, slots, k, gen, stopAtGen, maxPopulation, picks);
    }

    /** The counters of a new generation: no fails, the next generation, its first member. */
    method NextCounters()
      requires Valid()
      modifies this`fails, this`gen, this`pop
      ensures Valid() && fails == 0 && gen == old(gen) + 1 && pop == 1
    {
      fails := 0;
      gen := gen + 1;
      pop := 1;
    }

    /** The rest of that branch, on the elites found: the best network must exist, then
        training stops or the generation is refilled. */
    method Conclude(bestNetworks: seq<NeuralNetworkSave?>, picks: nat -> (nat, nat)) returns (result: StartResult)
      requires Valid() && gameStarted && |bestNetworks| <= maxPopulation
      requires PicksFit(picks, |bestNetworks|, maxPopulation)
      modifies this`gameStarted, this`currentHighest, this`generationNetworks
      modifies set j | 0 <= j < |bestNetworks| && bestNetworks[j] != null :: bestNetworks[j]
      ensures Valid()
      ensures result ==
        if |bestNetworks| == 0 || bestNetworks[0] == null then Crashed
        else if gen == stopAtGen + 1 then Stopped
        else if |bestNetworks| < 2 && |bestNetworks| < maxPopulation then Hung
        else if null in Cleared(bestNetworks, maxPopulation, picks) then Crashed
        else Continued
      ensures result == Stopped <==> !gameStarted
      ensures result == Stopped ==> generationNetworks == old(generationNetworks) && currentHighest == old(currentHighest)
      ensures result == Stopped || result == Hung ==>
        forall j :: 0 <= j < |bestNetworks| && bestNetworks[j] != null ==> unchanged(bestNetworks[j])
      ensures result == Continued ==>
        currentHighest == 0 && fresh(generationNetworks) &&
        generationNetworks[..] == Refilled(bestNetworks, maxPopulation, picks) &&
        forall j :: 0 <= j < |bestNetworks| && bestNetworks[j] != null ==>
          bestNetworks[j].unchanging ==
            (bestNetworks[j] !in Cleared(bestNetworks, maxPopulation, picks) && old(bestNetworks[j].unchanging))
    {
      if |bestNetworks| == 0 || bestNetworks[0] == null {
        return Crashed;
      }
      var bestNetworkId := bestNetworks[0].networkId;
      if gen == stopAtGen + 1 {
        gameStarted := false;
        return Stopped;
      }
      result := Refill(bestNetworks, picks);
    }

    /** The refill of OnGameStart: a new array holding the elites first, then for each further
        slot the elite of the first pick (even slots, whose save loses its unchanging flag,
        on the object the elites share) or of the second pick (odd slots). */
    method Refill(bestNetworks: seq<NeuralNetworkSave?>, picks: nat -> (nat, nat)) returns (result: StartResult)
      requires Valid() && |bestNetworks| <= maxPopulation && PicksFit(picks, |bestNetworks|, maxPopulation)
      modifies this`currentHighest, this`generationNetworks
      modifies set j | 0 <= j < |bestNetworks| && bestNetworks[j] != null :: bestNetworks[j]
      ensures Valid()
      ensures result == Hung <==> |bestNetworks| < 2 && |bestNetworks| < maxPopulation
      ensures result == Hung ==>
        forall j :: 0 <= j < |bestNetworks| && bestNetworks[j] != null ==> unchanged(bestNetworks[j])
      ensures result != Hung ==>
        fresh(generationNetworks) && currentHighest == 0 &&
        result == if null in Cleared(bestNetworks, maxPopulation, picks) then Crashed else Continued
      ensures result == Continued ==>
        generationNetworks[..] == Refilled(bestNetworks, maxPopulation, picks) &&
        null !in Cleared(bestNetworks, maxPopulation, picks) &&
        forall j :: 0 <= j < |bestNetworks| && bestNetworks[j] != null ==>
          bestNetworks[j].unchanging ==
            (bestNetworks[j] !in Cleared(bestNetworks, maxPopulation, picks) && old(bestNetworks[j].unchanging))
    {
      NewGeneration(bestNetworks);
      if |bestNetworks| < 2 && |bestNetworks| < maxPopulation {
        return Hung;
      }
      result := FillRest(bestNetworks, picks);
    }

    /** currentHighest = 0; a new array of slots; the elites copied to its front. */
    method NewGeneration(bestNetworks: seq<NeuralNetworkSave?>)
      requires Valid() && |bestNetworks| <= maxPopulation
      modifies this`currentHighest, this`generationNetworks
      ensures Valid() && fresh(generationNetworks) && currentHighest == 0
      ensures generationNetworks[..|bestNetworks|] == bestNetworks
    {
      currentHighest := 0;
      var slots := new NeuralNetworkSave?[maxPopulation](_ => null);
      var i := 0;
      while i < |bestNetworks|
        invariant 0 <= i <= |bestNetworks| && currentHighest == 0
        invariant slots[..i] == bestNetworks[..i]
      {
        slots[i] := bestNetworks[i];
        assert slots[..i + 1] == bestNetworks[..i + 1];
        i := i + 1;
      }
      generationNetworks := slots;
    }

    /** The loop over the slots past the elites. */
    method FillRest(bestNetworks: seq<NeuralNetworkSave?>, picks: nat -> (nat, nat)) returns (result: StartResult)
      requires Valid() && |bestNetworks| <= maxPopulation && PicksFit(picks, |bestNetworks|, maxPopulation)
      requires |bestNetworks| >= 2 || |bestNetworks| == maxPopulation
      requires generationNetworks[..|bestNetworks|] == bestNetworks
      modifies generationNetworks
      modifies set j | 0 <= j < |bestNetworks| && bestNetworks[j] != null :: bestNetworks[j]
      ensures result == if null in Cleared(bestNetworks, maxPopulation, picks) then Crashed else Continued
      ensures result == Continued ==>
        generationNetworks[..] == Refilled(bestNetworks, maxPopulation, picks) &&
        null !in Cleared(bestNetworks, maxPopulation, picks) &&
        forall j :: 0 <= j < |bestNetworks| && bestNetworks[j] != null ==>
          bestNetworks[j].unchanging ==
            (bestNetworks[j] !in Cleared(bestNetworks, maxPopulation, picks) && old(bestNetworks[j].unchanging))
    {
      var k := |bestNetworks|;
      ghost var goal := Refilled(bestNetworks, maxPopulation, picks);
      assert generationNetworks[..k] == goal[..k];
      var i := k;
      ghost var cleared: set<NeuralNetworkSave?> := {};
      while i < maxPopulation
        invariant k <= i <= maxPopulation
        invariant forall j :: 0 <= j < i ==> generationNetworks[j] == goal[j]
        invariant cleared == Cleared(bestNetworks, i, picks) && null !in cleared
        invariant forall j :: 0 <= j < k && bestNetworks[j] != null ==>
          bestNetworks[j].unchanging == (bestNetworks[j] !in cleared && old(bestNetworks[j].unchanging))
      {
        var (randNet1, randNet2) := picks(i);
        var chosen := bestNetworks[if i % 2 == 0 then randNet1 else randNet2];
        generationNetworks[i] := chosen;
        ClearedStep(bestNetworks, i, picks);
        if i % 2 == 0 {
          if chosen == null {
            ClearedGrows(bestNetworks, i + 1, maxPopulation, picks);
            return Crashed;
          }
          chosen.unchanging := false;
          cleared := cleared + {chosen};
        }
        i := i + 1;
      }
      assert generationNetworks[..] == goal;
      result := Continued;
    }
  }
}
