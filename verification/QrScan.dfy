/** The scan that places data modules: two columns at a time from the right, top to bottom, past
    the timing column, skipping the reserved areas. */
module QrScan {

  type Cell = (int, int)

  /** Version sizes are 4 * version + 17; the areas below only need an odd size that is not tiny. */
  predicate ValidSize(size: int) {
    size >= 21 && size % 2 == 1
  }

  /** The areas the scan skips: three corners around the finder patterns, and the timing lines. */
  predicate Reserved(size: int, y: int, x: int) {
    || (y < 9 && x < 9)
    || (y < 9 && x >= size - 8)
    || (y >= size - 8 && x < 9)
    || y == 6 || x == 6
  }

  predicate Inside(size: int, y: int, x: int) {
    0 <= y < size && 0 <= x < size
  }

  predicate Free(size: int, y: int, x: int) {
    Inside(size, y, x) && !Reserved(size, y, x)
  }

  // ----- the order in which cells are visited

  ghost function Visit(size: int, y: int, x: int): seq<Cell> {
    if Free(size, y, x) then [(y, x)] else []
  }

  ghost function RowPair(size: int, row: int, col: int): seq<Cell> {
    Visit(size, row, col) + Visit(size, row, col - 1)
  }

  /** The free cells of columns `col` and `col - 1` above `row`. */
  ghost function ColumnPair(size: int, col: int, row: nat): seq<Cell> {
    if row == 0 then []
    else ColumnPair(size, col, row - 1) + RowPair(size, row - 1, col)
  }

  /** The columns at which the scan starts a pair of columns, and -1 for its end. */
  predicate ScanColumn(size: int, col: int) {
    -1 <= col < size && (if col > 6 then col % 2 == 0 else col < 6 && col % 2 == 1)
  }

  /** The pair of columns visited just before `col`. */
  function Previous(col: int): int {
    if col == 5 then 8 else col + 2
  }

  /** The free cells visited before column `col`. */
  ghost function Before(size: int, col: int): seq<Cell>
    decreases size - col
  {
    if size <= 0 || col >= size - 1 then []
    else Before(size, Previous(col)) + ColumnPair(size, Previous(col), size)
  }

  /** All data modules in the order the scan visits them. */
  ghost function DataCells(size: int): seq<Cell> {
    Before(size, -1)
  }

  // ----- every free cell is visited exactly once

  function One(b: bool): nat {
    if b then 1 else 0
  }

  /** How often a cell occurs in a list of cells. */
  ghost function Times(cells: seq<Cell>, c: Cell): nat {
    if cells == [] then 0 else One(cells[0] == c) + Times(cells[1..], c)
  }

  lemma {:induction false} TimesAppend(a: seq<Cell>, b: seq<Cell>, c: Cell)
    ensures Times(a + b, c) == Times(a, c) + Times(b, c)
    decreases |a|
  {
    if a == [] {
      assert a + b == b;
    } else {
      assert (a + b)[1..] == a[1..] + b;
      TimesAppend(a[1..], b, c);
    }
  }

  /** A cell that occurs once has one position, and one that does not occur has none. */
  lemma {:induction false} TimesIsPositions(cells: seq<Cell>, c: Cell)
    ensures c in cells <==> Times(cells, c) > 0
    ensures Times(cells, c) <= 1 ==>
              forall i, j :: 0 <= i < |cells| && 0 <= j < |cells| && cells[i] == c && cells[j] == c ==> i == j
    decreases |cells|
  {
    if cells != [] {
      var rest := cells[1..];
      TimesIsPositions(rest, c);
      assert forall i :: 0 < i < |cells| ==> cells[i] == rest[i - 1];
    }
  }

  lemma ColumnPairVisits(size: int, col: int, row: nat, y: int, x: int)
    requires 1 <= col && row <= size
    ensures Times(ColumnPair(size, col, row), (y, x)) ==
            One(y < row && (x == col || x == col - 1) && Free(size, y, x))
  {
    ColumnPairTimes(size, col, row, y, x, (x == col || x == col - 1) && Free(size, y, x));
  }

  lemma {:induction false} ColumnPairTimes(size: int, col: int, row: nat, y: int, x: int, here: bool)
    requires here ==> y >= 0
    requires here == ((x == col || x == col - 1) && Free(size, y, x))
    ensures Times(ColumnPair(size, col, row), (y, x)) == One(y < row && here)
    decreases row
  {
    if row > 0 {
      ColumnPairTimes(size, col, row - 1, y, x, here);
      RowPairTimes(size, row - 1, col, y, x);
      TimesAppend(ColumnPair(size, col, row - 1), RowPair(size, row - 1, col), (y, x));
    }
  }

  lemma RowPairTimes(size: int, row: int, col: int, y: int, x: int)
    ensures Times(RowPair(size, row, col), (y, x)) == One(y == row && (x == col || x == col - 1) && Free(size, y, x))
  {
    TimesAppend(Visit(size, row, col), Visit(size, row, col - 1), (y, x));
  }

  lemma {:induction false} BeforeVisits(size: int, col: int, y: int, x: int)
    requires ValidSize(size) && ScanColumn(size, col)
    ensures Times(Before(size, col), (y, x)) == One(x > col && Free(size, y, x))
    decreases size - col
  {
    if col < size - 1 {
      var p := Previous(col);
      BeforeVisits(size, p, y, x);
      ColumnPairVisits(size, p, size, y, x);
      TimesAppend(Before(size, p), ColumnPair(size, p, size), (y, x));
    }
  }

  /** The scan visits every module outside the reserved areas exactly once, and no other. */
  lemma ScanVisitsEachOnce(size: int, y: int, x: int)
    requires ValidSize(size)
    ensures Times(DataCells(size), (y, x)) == One(Free(size, y, x))
  {
    BeforeVisits(size, -1, y, x);
  }

  // ----- the order of the scan

  /** The pair of columns a column belongs to, named by its right column. */
  function PairOf(x: int): int {
    if x > 6 then (if x % 2 == 0 then x else x + 1) else (if x % 2 == 1 then x else x + 1)
  }

  /** Pairs of columns from right to left, rows downwards, the right module before the left one; `pair`
      tells the pair of a column. */
  predicate ComesBefore(pair: int -> int, a: Cell, b: Cell) {
    || pair(a.1) > pair(b.1)
    || (pair(a.1) == pair(b.1) && (a.0 < b.0 || (a.0 == b.0 && a.1 > b.1)))
  }

  ghost predicate InOrder(pair: int -> int, cells: seq<Cell>) {
    forall k, l :: 0 <= k < l < |cells| ==> ComesBefore(pair, cells[k], cells[l])
  }

  /** Cells of one pair of columns above `row`. */
  ghost predicate Above(pair: int -> int, cells: seq<Cell>, col: int, row: int) {
    forall k :: 0 <= k < |cells| ==> cells[k].0 < row && pair(cells[k].1) == col
  }

  /** Adding one cell that comes after all others. */
  lemma AddLast(pair: int -> int, cells: seq<Cell>, c: Cell)
    requires InOrder(pair, cells) && forall k :: 0 <= k < |cells| ==> ComesBefore(pair, cells[k], c)
    ensures InOrder(pair, cells + [c])
  {
  }

  lemma AddVisit(pair: int -> int, size: int, cells: seq<Cell>, col: int, row: int, x: int)
    requires InOrder(pair, cells) && pair(x) == col
    requires forall k :: 0 <= k < |cells| ==>
               pair(cells[k].1) == col && (cells[k].0 < row || (cells[k].0 == row && cells[k].1 > x))
    ensures InOrder(pair, cells + Visit(size, row, x))
  {
    if Free(size, row, x) { AddLast(pair, cells, (row, x)); } else { assert cells + [] == cells; }
  }

  lemma AddRow(pair: int -> int, size: int, cells: seq<Cell>, col: int, row: int)
    requires InOrder(pair, cells) && Above(pair, cells, col, row) && pair(col) == pair(col - 1) == col
    ensures InOrder(pair, cells + RowPair(size, row, col)) && Above(pair, cells + RowPair(size, row, col), col, row + 1)
  {
    var half := cells + Visit(size, row, col);
    AddVisit(pair, size, cells, col, row, col);
    AddVisit(pair, size, half, col, row, col - 1);
    assert half + Visit(size, row, col - 1) == cells + RowPair(size, row, col);
  }

  lemma {:induction false} ColumnPairInOrder(pair: int -> int, size: int, col: int, row: nat)
    requires pair(col) == pair(col - 1) == col
    ensures InOrder(pair, ColumnPair(size, col, row)) && Above(pair, ColumnPair(size, col, row), col, row)
    decreases row
  {
    if row > 0 {
      ColumnPairInOrder(pair, size, col, row - 1);
      AddRow(pair, size, ColumnPair(size, col, row - 1), col, row - 1);
    }
  }

  /** Cells of pairs of columns right of `col`. */
  ghost predicate RightOf(pair: int -> int, cells: seq<Cell>, col: int) {
    forall k :: 0 <= k < |cells| ==> pair(cells[k].1) > col
  }

  lemma PairsInOrder(pair: int -> int, a: seq<Cell>, b: seq<Cell>, p: int, size: int, col: int)
    requires InOrder(pair, a) && InOrder(pair, b) && RightOf(pair, a, p) && Above(pair, b, p, size) && p > col
    ensures InOrder(pair, a + b) && RightOf(pair, a + b, col)
  {
    var all := a + b;
    assert forall k :: 0 <= k < |a| ==> all[k] == a[k];
    assert forall k :: |a| <= k < |all| ==> all[k] == b[k - |a|];
  }

  lemma {:induction false} BeforeInOrder(pair: int -> int, size: int, col: int)
    requires ValidSize(size) && ScanColumn(size, col)
    requires forall p :: ScanColumn(size, p) && p > 0 ==> pair(p) == p && pair(p - 1) == p
    ensures InOrder(pair, Before(size, col)) && RightOf(pair, Before(size, col), col)
    decreases size - col
  {
    if col < size - 1 {
      var p := Previous(col);
      assert ScanColumn(size, p) && p > 0;
      BeforeInOrder(pair, size, p);
      ColumnPairInOrder(pair, size, p, size);
      PairsInOrder(pair, Before(size, p), ColumnPair(size, p, size), p, size, col);
    }
  }

  /** The data modules are visited pair of columns by pair from the right, each downwards, and the right
      module of a row before the left one. */
  lemma ScanIsInOrder(size: int)
    requires ValidSize(size)
    ensures InOrder(PairOf, DataCells(size))
  {
    BeforeInOrder(PairOf, size, -1);
  }

  // ----- how many there are

  /** The number of free cells of column `x` above `row`. */
  function FreeAbove(size: int, x: int, row: int): int {
    if x == 6 then 0
    else if x >= size - 8 then (if row <= 9 then 0 else row - 9)
    else if x >= 9 then (if row <= 6 then row else row - 1)
    else if row <= 9 then 0 else (if row <= size - 8 then row else size - 8) - 9
  }

  lemma {:induction false} ColumnPairCount(size: int, col: int, row: nat)
    requires ValidSize(size) && 1 <= col < size && row <= size
    ensures |ColumnPair(size, col, row)| == FreeAbove(size, col, row) + FreeAbove(size, col - 1, row)
    decreases row
  {
    if row > 0 { ColumnPairCount(size, col, row - 1); }
  }

  /** The number of free cells right of column `col`. */
  function FreeRightOf(size: int, col: int): int {
    if col >= size - 9 then (size - 1 - col) * (size - 9)
    else if col >= 8 then 8 * (size - 9) + (size - 9 - col) * (size - 1)
    else 8 * (size - 9) + (size - 17) * (size - 1) + (if col >= 6 then 8 - col else 7 - col) * (size - 17)
  }

  lemma {:induction false} BeforeCount(size: int, col: int)
    requires ValidSize(size) && ScanColumn(size, col)
    ensures |Before(size, col)| == FreeRightOf(size, col)
    decreases size - col
  {
    if col < size - 1 {
      BeforeCount(size, Previous(col));
      ColumnPairCount(size, Previous(col), size);
      AddPair(size, col);
    }
  }

  lemma AddPair(size: int, col: int)
    requires ValidSize(size) && ScanColumn(size, col) && col < size - 1
    ensures var p := Previous(col);
      FreeRightOf(size, col) == FreeRightOf(size, p) + FreeAbove(size, p, size) + FreeAbove(size, p - 1, size)
  {
    if col >= size - 9 {
      TwoMore(size - 3 - col, size - 9);
    } else if col >= 8 {
      AddMiddlePair(size, col);
    } else {
      AddLeftPair(size, col);
    }
  }

  lemma TwoMore(a: int, b: int)
    ensures (a + 2) * b == a * b + 2 * b
  {
  }

  /** A pair between the finders: each column has its timing module only. */
  lemma AddMiddlePair(size: int, col: int)
    requires ValidSize(size) && ScanColumn(size, col) && 8 <= col < size - 9
    ensures FreeRightOf(size, col) == FreeRightOf(size, col + 2) + 2 * (size - 1)
  {
    TwoMore(size - 11 - col, size - 1);
  }

  /** A pair below the first finder. */
  lemma AddLeftPair(size: int, col: int)
    requires ValidSize(size) && ScanColumn(size, col) && col < 8
    ensures FreeRightOf(size, col) == FreeRightOf(size, Previous(col)) + 2 * (size - 17)
  {
    if col == 5 {
      assert (size - 9 - 8) * (size - 1) == (size - 17) * (size - 1);
    } else {
      TwoMore(5 - col, size - 17);
    }
  }

  function Capacity(size: int): int {
    size * size - 2 * size - 191
  }

  /** The number of data modules. */
  lemma DataCellCount(size: int)
    requires ValidSize(size)
    ensures |DataCells(size)| == Capacity(size)
  {
    BeforeCount(size, -1);
    assert (size - 17) * (size - 1) == size * size - 18 * size + 17;
  }
}
