/** `generateQRMatrix`: finder and timing patterns, and the data bits along the scan. */
module QrMatrix {
  import opened Bytes
  import opened QrScan

  function Version(dataLen: nat): nat {
    if dataLen <= 77 then 5
    else if dataLen <= 154 then 10
    else if dataLen <= 268 then 15
    else if dataLen <= 395 then 20
    else 25
  }

  function Size(dataLen: nat): int {
    Version(dataLen) * 4 + 17
  }

  // ----- the fixed patterns

  /** A finder pattern and its separator, relative to the pattern's corner. */
  predicate Finder(r: int, c: int) {
    && !(r == -1 || r == 7 || c == -1 || c == 7)
    && (r == 0 || r == 6 || c == 0 || c == 6 || (2 <= r <= 4 && 2 <= c <= 4))
  }

  predicate Near(a: int, corner: int) {
    corner - 1 <= a <= corner + 7
  }

  /** The matrix before any data is placed (sections 6.3.3 and 6.3.5 of ISO/IEC 18004:2015). */
  predicate Pattern(size: int, y: int, x: int) {
    if Near(y, 0) && Near(x, 0) then Finder(y, x)
    else if Near(y, 0) && Near(x, size - 7) then Finder(y, x - (size - 7))
    else if Near(y, size - 7) && Near(x, 0) then Finder(y - (size - 7), x)
    else if y == 6 then x % 2 == 0
    else x == 6 && y % 2 == 0
  }

  const FINDER: seq<string> := [
    "#######",
    "#     #",
    "# ### #",
    "# ### #",
    "# ### #",
    "#     #",
    "#######"
  ]

  /** A finder pattern as drawn in section 6.3.3 of ISO/IEC 18004:2015, with a light border around it. */
  lemma FinderIsDrawn(r: int, c: int)
    ensures 0 <= r < 7 && 0 <= c < 7 ==> |FINDER| == 7 && |FINDER[r]| == 7 && (Finder(r, c) <==> FINDER[r][c] == '#')
    ensures Near(r, 0) && Near(c, 0) && !(0 <= r < 7 && 0 <= c < 7) ==> !Finder(r, c)
  {
  }

  lemma PatternIsReserved(size: int, y: int, x: int)
    requires ValidSize(size) && Free(size, y, x)
    ensures !Pattern(size, y, x)
  {
  }

  // ----- the data bits

  /** Bit `k` of the data, most significant bit of each byte first; nothing beyond its end. */
  function Bit(bytes: seq<Byte>, k: nat): bool {
    k < 8 * |bytes| && Digit(bytes[k / 8], 7 - k % 8)
  }

  /** `(b >> pos) & 1`. */
  function Digit(b: Byte, pos: nat): bool
    requires pos < 8
  {
    Shift(b, pos) % 2 == 1
  }

  /** `b >> pos`. */
  function Shift(b: nat, pos: nat): nat {
    if pos == 0 then b else Shift(b, pos - 1) / 2
  }

  /** The cells of `done` carry the first data bits; every other module shows the pattern. */
  ghost predicate Painted(m: array2<bool>, bytes: seq<Byte>, done: seq<Cell>)
    reads m
  {
    && m.Length0 == m.Length1
    && (forall k :: 0 <= k < |done| ==>
          Inside(m.Length0, done[k].0, done[k].1) && m[done[k].0, done[k].1] == Bit(bytes, k))
    && (forall y, x :: Inside(m.Length0, y, x) && (y, x) !in done ==> m[y, x] == Pattern(m.Length0, y, x))
  }

  method DrawFinder(m: array2<bool>, row: int, col: int)
    requires m.Length0 == m.Length1
    modifies m
    ensures forall y, x :: Inside(m.Length0, y, x) ==>
              m[y, x] == if Near(y, row) && Near(x, col) then Finder(y - row, x - col) else old(m[y, x])
  {
    for r := -1 to 8
      invariant forall y, x :: Inside(m.Length0, y, x) ==>
                  m[y, x] == if row - 1 <= y < row + r && Near(x, col) then Finder(y - row, x - col) else old(m[y, x])
    {
      for c := -1 to 8
        invariant forall y, x :: Inside(m.Length0, y, x) ==>
                    m[y, x] == if (row - 1 <= y < row + r && Near(x, col)) || (y == row + r && col - 1 <= x < col + c)
                               then Finder(y - row, x - col) else old(m[y, x])
      {
        var y, x := row + r, col + c;
        if !(y < 0 || y >= m.Length0 || x < 0 || x >= m.Length0) {
          var isOuter := r == -1 || r == 7 || c == -1 || c == 7;
          var isInner := 2 <= r <= 4 && 2 <= c <= 4;
          var isBorder := r == 0 || r == 6 || c == 0 || c == 6;
          m[y, x] := !isOuter && (isBorder || isInner);
        }
      }
    }
  }

  method DrawPatterns(m: array2<bool>)
    requires m.Length0 == m.Length1 && ValidSize(m.Length0)
    requires forall y, x :: Inside(m.Length0, y, x) ==> !m[y, x]
    modifies m
    ensures forall y, x :: Inside(m.Length0, y, x) ==> m[y, x] == Pattern(m.Length0, y, x)
  {
    DrawFinders(m);
    DrawTiming(m);
  }

  /** The three finder patterns. */
  predicate Corners(size: int, y: int, x: int) {
    if Near(y, 0) && Near(x, 0) then Finder(y, x)
    else if Near(y, 0) && Near(x, size - 7) then Finder(y, x - (size - 7))
    else Near(y, size - 7) && Near(x, 0) && Finder(y - (size - 7), x)
  }

  method DrawFinders(m: array2<bool>)
    requires m.Length0 == m.Length1 && ValidSize(m.Length0)
    requires forall y, x :: Inside(m.Length0, y, x) ==> !m[y, x]
    modifies m
    ensures forall y, x :: Inside(m.Length0, y, x) ==> m[y, x] == Corners(m.Length0, y, x)
  {
    DrawFinder(m, 0, 0);
    DrawFinder(m, 0, m.Length0 - 7);
    DrawFinder(m, m.Length0 - 7, 0);
  }

  method DrawTiming(m: array2<bool>)
    requires m.Length0 == m.Length1 && ValidSize(m.Length0)
    modifies m
    ensures forall y, x :: Inside(m.Length0, y, x) ==>
              m[y, x] == if y == 6 && 8 <= x < m.Length0 - 8 then x % 2 == 0
                         else if x == 6 && 8 <= y < m.Length0 - 8 then y % 2 == 0
                         else old(m[y, x])
  {
    for i := 8 to m.Length0 - 8
      invariant forall y, x :: Inside(m.Length0, y, x) ==>
                  m[y, x] == if y == 6 && 8 <= x < i then x % 2 == 0
                             else if x == 6 && 8 <= y < i then y % 2 == 0
                             else old(m[y, x])
    {
      m[6, i] := i % 2 == 0;
      m[i, 6] := i % 2 == 0;
    }
  }

  /** The innermost step of the scan: one module. */
  method PlaceModule(m: array2<bool>, bytes: seq<Byte>, y: int, x: int, bitIndex: nat, ghost done: seq<Cell>)
    returns (next: nat)
    requires m.Length0 == m.Length1 && ValidSize(m.Length0) && Inside(m.Length0, y, x)
    requires Painted(m, bytes, done) && (y, x) !in done
    requires bitIndex == if |done| < 8 * |bytes| then |done| else 8 * |bytes|
    modifies m
    ensures Painted(m, bytes, done + Visit(m.Length0, y, x))
    ensures var n := |done + Visit(m.Length0, y, x)|; next == if n < 8 * |bytes| then n else 8 * |bytes|
  {
    next := bitIndex;
    var size := m.Length0;
    if m[y, x] { return; }
    if y < 9 && x < 9 { return; }
    if y < 9 && x >= size - 8 { return; }
    if y >= size - 8 && x < 9 { return; }
    if y == 6 || x == 6 { return; }
    if bitIndex < |bytes| * 8 {
      m[y, x] := Digit(bytes[bitIndex / 8], 7 - bitIndex % 8);
      next := bitIndex + 1;
    }
  }

  method PlaceRowPair(m: array2<bool>, bytes: seq<Byte>, row: int, col: int, bitIndex: nat, ghost done: seq<Cell>)
    returns (next: nat)
    requires m.Length0 == m.Length1 && ValidSize(m.Length0) && 0 <= row < m.Length0 && 1 <= col < m.Length0
    requires (row, col) !in done && (row, col - 1) !in done
    requires Painted(m, bytes, done) && bitIndex == Placed(bytes, done)
    modifies m
    ensures Painted(m, bytes, done + RowPair(m.Length0, row, col))
    ensures next == Placed(bytes, done + RowPair(m.Length0, row, col))
  {
    ghost var half := done + Visit(m.Length0, row, col);
    next := PlaceModule(m, bytes, row, col, bitIndex, done);
    next := PlaceModule(m, bytes, row, col - 1, next, half);
    assert half + Visit(m.Length0, row, col - 1) == done + RowPair(m.Length0, row, col);
  }

  /** The two columns of one pass of the scan. */
  method PlaceColumnPair(m: array2<bool>, bytes: seq<Byte>, col: int, bitIndex: nat, ghost before: seq<Cell>)
    returns (next: nat)
    requires m.Length0 == m.Length1 && ValidSize(m.Length0) && 1 <= col < m.Length0
    requires forall y, x :: x <= col ==> (y, x) !in before
    requires Painted(m, bytes, before) && bitIndex == Placed(bytes, before)
    modifies m
    ensures Painted(m, bytes, before + ColumnPair(m.Length0, col, m.Length0))
    ensures next == Placed(bytes, before + ColumnPair(m.Length0, col, m.Length0))
  {
    next := bitIndex;
    var size := m.Length0;
    ghost var done := before;
    assert done == before + ColumnPair(size, col, 0);
    for row := 0 to size
      invariant done == before + ColumnPair(size, col, row)
      invariant Painted(m, bytes, done) && next == Placed(bytes, done)
    {
      NotVisited(size, col, row);
      next := PlaceRowPair(m, bytes, row, col, next, done);
      done := done + RowPair(size, row, col);
      assert done == before + ColumnPair(size, col, row + 1);
    }
  }

  /** How many bits are placed once the cells of `done` have been visited. */
  ghost function Placed(bytes: seq<Byte>, done: seq<Cell>): nat {
    if |done| < 8 * |bytes| then |done| else 8 * |bytes|
  }

  lemma NotVisited(size: int, col: int, row: nat)
    requires 1 <= col && row <= size
    ensures forall x :: (row, x) !in ColumnPair(size, col, row)
  {
    forall x ensures (row, x) !in ColumnPair(size, col, row) {
      ColumnPairVisits(size, col, row, row, x);
      TimesIsPositions(ColumnPair(size, col, row), (row, x));
    }
  }

  lemma NotVisitedBefore(size: int, col: int)
    requires ValidSize(size) && ScanColumn(size, col)
    ensures forall y, x :: x <= col ==> (y, x) !in Before(size, col)
  {
    forall y, x | x <= col ensures (y, x) !in Before(size, col) {
      BeforeVisits(size, col, y, x);
      TimesIsPositions(Before(size, col), (y, x));
    }
  }

  lemma NextColumn(size: int, col: int)
    requires ValidSize(size) && ScanColumn(size, col) && col >= 1
    ensures ScanColumn(size, Skip(col - 2))
    ensures Before(size, Skip(col - 2)) == Before(size, col) + ColumnPair(size, col, size)
  {
  }

  /** The whole generator, for a string of `dataLen` UTF-16 units whose UTF-8 form is `bytes`. */
  method Generate(dataLen: nat, bytes: seq<Byte>) returns (m: array2<bool>)
    ensures fresh(m) && m.Length0 == m.Length1 == Size(dataLen)
    ensures Painted(m, bytes, DataCells(Size(dataLen)))
  {
    var size := Size(dataLen);
    m := new bool[size, size]((y, x) => false);
    DrawPatterns(m);
    PlaceData(m, bytes);
  }

  /** The column the scan continues at: column 6 is the timing line. */
  function Skip(col: int): int { if col == 6 then 5 else col }

  /** One pass of the scan. */
  method PlacePass(m: array2<bool>, bytes: seq<Byte>, col: int, bitIndex: nat) returns (next: nat)
    requires m.Length0 == m.Length1 && ValidSize(m.Length0) && ScanColumn(m.Length0, col) && col >= 1
    requires Painted(m, bytes, Before(m.Length0, col)) && bitIndex == Placed(bytes, Before(m.Length0, col))
    modifies m
    ensures ScanColumn(m.Length0, Skip(col - 2)) && Painted(m, bytes, Before(m.Length0, Skip(col - 2)))
    ensures next == Placed(bytes, Before(m.Length0, Skip(col - 2)))
  {
    NotVisitedBefore(m.Length0, col);
    NextColumn(m.Length0, col);
    next := PlaceColumnPair(m, bytes, col, bitIndex, Before(m.Length0, col));
  }

  method PlaceData(m: array2<bool>, bytes: seq<Byte>)
    requires m.Length0 == m.Length1 && ValidSize(m.Length0) && Painted(m, bytes, [])
    modifies m
    ensures Painted(m, bytes, DataCells(m.Length0))
  {
    var size := m.Length0;
    var bitIndex := 0;
    var col := size - 1;
    ScanEnds(size, col);
    while col >= 1
      invariant ScanColumn(size, Skip(col))
      invariant Painted(m, bytes, Before(size, Skip(col))) && bitIndex == Placed(bytes, Before(size, Skip(col)))
      decreases col
    {
      if col == 6 { col := 5; }
      bitIndex := PlacePass(m, bytes, col, bitIndex);
      col := col - 2;
    }
    ScanEnds(size, col);
  }

  /** The scan starts at the last column with nothing done, and ends at -1. */
  lemma ScanEnds(size: int, col: int)
    requires ValidSize(size)
    ensures col == size - 1 ==> Skip(col) == col && ScanColumn(size, col) && Before(size, col) == []
    ensures col < 1 && ScanColumn(size, Skip(col)) ==> col == -1 && Skip(col) == -1
  {
  }

  // ----- reading the data back

  /** The data modules of a matrix in scan order. */
  ghost function DataModules(size: int, bytes: seq<Byte>): seq<bool>
    requires ValidSize(size)
  {
    seq(|DataCells(size)|, k requires k >= 0 => Bit(bytes, k))
  }

  /** A finished matrix shows every pattern module untouched and the data modules in scan order. */
  lemma PaintedShows(m: array2<bool>, bytes: seq<Byte>, y: int, x: int)
    requires m.Length0 == m.Length1 && ValidSize(m.Length0) && Painted(m, bytes, DataCells(m.Length0))
    requires Inside(m.Length0, y, x)
    ensures Reserved(m.Length0, y, x) ==> m[y, x] == Pattern(m.Length0, y, x)
    ensures forall k :: 0 <= k < |DataCells(m.Length0)| && DataCells(m.Length0)[k] == (y, x) ==>
              m[y, x] == DataModules(m.Length0, bytes)[k]
    ensures !Reserved(m.Length0, y, x) ==> (y, x) in DataCells(m.Length0)
  {
    ScanVisitsEachOnce(m.Length0, y, x);
    TimesIsPositions(DataCells(m.Length0), (y, x));
  }

  lemma {:induction false} ShiftBound(b: nat, pos: nat, limit: nat)
    requires b < Times2(limit, pos)
    ensures Shift(b, pos) < limit
    decreases pos
  {
    if pos > 0 { ShiftBound(b, pos - 1, 2 * limit); }
  }

  ghost function Times2(x: nat, k: nat): nat
    decreases k
  {
    if k == 0 then x else Times2(2 * x, k - 1)
  }

  lemma {:induction false} DigitsDetermineShift(a: Byte, b: Byte, pos: nat)
    requires pos <= 8 && forall p: nat :: p < 8 ==> Digit(a, p) == Digit(b, p)
    ensures Shift(a, pos) == Shift(b, pos)
    decreases 8 - pos
  {
    if pos == 8 {
      assert Times2(1, 8) == Times2(16, 4) == 256;
      ShiftBound(a, 8, 1);
      ShiftBound(b, 8, 1);
    } else {
      DigitsDetermineShift(a, b, pos + 1);
      assert Digit(a, pos) == Digit(b, pos);
    }
  }

  function Value(dark: bool, weight: nat): nat { if dark then weight else 0 }

  lemma ByteIsSum(b: Byte)
    ensures b == Value(Digit(b, 7), 128) + Value(Digit(b, 6), 64) + Value(Digit(b, 5), 32) + Value(Digit(b, 4), 16)
                 + Value(Digit(b, 3), 8) + Value(Digit(b, 2), 4) + Value(Digit(b, 1), 2) + Value(Digit(b, 0), 1)
  {
    NothingAboveEight(b);
    FourDigits(b, 4, 0, Shift(b, 4));
    FourDigits(b, 0, Shift(b, 4), b);
  }

  lemma NothingAboveEight(b: Byte)
    ensures Shift(b, 8) == 0
  {
    assert Times2(1, 8) == Times2(16, 4) == 256;
    ShiftBound(b, 8, 1);
  }

  lemma FourDigits(b: Byte, pos: nat, high: nat, low: nat)
    requires pos <= 4 && high == Shift(b, pos + 4) && low == Shift(b, pos)
    ensures low == 16 * high + Value(Digit(b, pos + 3), 8) + Value(Digit(b, pos + 2), 4)
                   + Value(Digit(b, pos + 1), 2) + Value(Digit(b, pos), 1)
  {
    var s1, s2, s3 := Shift(b, pos + 1), Shift(b, pos + 2), Shift(b, pos + 3);
    assert low == 2 * s1 + Value(Digit(b, pos), 1);
    assert s1 == 2 * s2 + Value(Digit(b, pos + 1), 1);
    assert s2 == 2 * s3 + Value(Digit(b, pos + 2), 1);
    assert s3 == 2 * high + Value(Digit(b, pos + 3), 1);
  }

  /** Reading a finished matrix: each byte that fits is the sum of its eight modules, the first of them
      worth 128 and the last worth 1. */
  lemma MatrixShowsByte(m: array2<bool>, bytes: seq<Byte>, i: nat)
    requires m.Length0 == m.Length1 && ValidSize(m.Length0) && Painted(m, bytes, DataCells(m.Length0))
    requires i < |bytes| && 8 * i + 8 <= |DataCells(m.Length0)|
    ensures
      var cells := DataCells(m.Length0)[8 * i..8 * i + 8];
      && (forall k :: 0 <= k < 8 ==> Inside(m.Length0, cells[k].0, cells[k].1))
      && bytes[i] == Value(m[cells[0].0, cells[0].1], 128) + Value(m[cells[1].0, cells[1].1], 64)
                     + Value(m[cells[2].0, cells[2].1], 32) + Value(m[cells[3].0, cells[3].1], 16)
                     + Value(m[cells[4].0, cells[4].1], 8) + Value(m[cells[5].0, cells[5].1], 4)
                     + Value(m[cells[6].0, cells[6].1], 2) + Value(m[cells[7].0, cells[7].1], 1)
  {
    var all := DataCells(m.Length0);
    var cells := all[8 * i..8 * i + 8];
    forall k | 0 <= k < 8
      ensures Inside(m.Length0, cells[k].0, cells[k].1) && m[cells[k].0, cells[k].1] == Digit(bytes[i], 7 - k)
    {
      var n := 8 * i + k;
      assert cells[k] == all[n] && n / 8 == i && n % 8 == k;
    }
    ByteIsSum(bytes[i]);
  }

  /** No other data of the same length gives the same modules. */
  ghost predicate Recoverable(size: int, bytes: seq<Byte>)
    requires ValidSize(size)
  {
    forall other: seq<Byte> ::
      |other| == |bytes| && DataModules(size, other) == DataModules(size, bytes) ==> other == bytes
  }

  lemma FittingDataIsRecovered(size: int, bytes: seq<Byte>, other: seq<Byte>)
    requires ValidSize(size) && 8 * |bytes| <= Capacity(size)
    requires |other| == |bytes| && DataModules(size, other) == DataModules(size, bytes)
    ensures other == bytes
  {
    DataCellCount(size);
    forall i | 0 <= i < |bytes| ensures other[i] == bytes[i] {
      forall pos: nat | pos < 8 ensures Digit(other[i], pos) == Digit(bytes[i], pos) {
        var k := 8 * i + 7 - pos;
        assert k / 8 == i && k % 8 == 7 - pos;
        assert DataModules(size, other)[k] == DataModules(size, bytes)[k];
      }
      DigitsDetermineShift(other[i], bytes[i], 0);
    }
  }

  /** The data with its very last bit flipped. */
  function FlipLast(bytes: seq<Byte>): (r: seq<Byte>)
    requires bytes != []
  {
    var b := bytes[|bytes| - 1];
    bytes[|bytes| - 1 := if b % 2 == 0 then b + 1 else b - 1]
  }

  lemma {:induction false} HalvesDecide(b: nat, c: nat, pos: nat)
    requires b / 2 == c / 2 && pos > 0
    ensures Shift(b, pos) == Shift(c, pos)
    decreases pos
  {
    if pos > 1 { HalvesDecide(b, c, pos - 1); }
  }

  lemma FlipKeepsEarlierBits(bytes: seq<Byte>, k: nat)
    requires bytes != [] && k < 8 * |bytes| - 1
    ensures Bit(FlipLast(bytes), k) == Bit(bytes, k)
  {
    if k / 8 == |bytes| - 1 {
      HalvesDecide(bytes[|bytes| - 1], FlipLast(bytes)[|bytes| - 1], 7 - k % 8);
    }
  }

  lemma OverlongDataIsLost(size: int, bytes: seq<Byte>)
    requires ValidSize(size) && 8 * |bytes| > Capacity(size) >= 0
    ensures !Recoverable(size, bytes)
  {
    DataCellCount(size);
    var other := FlipLast(bytes);
    assert other[|bytes| - 1] != bytes[|bytes| - 1];
    forall k: nat | k < |DataCells(size)| ensures Bit(other, k) == Bit(bytes, k) {
      FlipKeepsEarlierBits(bytes, k);
    }
    assert DataModules(size, other) == DataModules(size, bytes);
  }

  /** The data can be read back, given its length, exactly when its bits fit the data modules. */
  lemma RecoverableIffFits(size: int, bytes: seq<Byte>)
    requires ValidSize(size)
    ensures Recoverable(size, bytes) <==> 8 * |bytes| <= Capacity(size)
  {
    if 8 * |bytes| <= Capacity(size) {
      forall other: seq<Byte> | |other| == |bytes| && DataModules(size, other) == DataModules(size, bytes)
        ensures other == bytes
      {
        FittingDataIsRecovered(size, bytes, other);
      }
    } else {
      DataCellCount(size);
      OverlongDataIsLost(size, bytes);
    }
  }

  lemma CapacityOf(dataLen: nat)
    ensures ValidSize(Size(dataLen))
    ensures Capacity(Size(dataLen)) ==
            if dataLen <= 77 then 1104
            else if dataLen <= 154 then 2944
            else if dataLen <= 268 then 5584
            else if dataLen <= 395 then 9024
            else 13264
  {
  }

  /** An ASCII string, one byte per unit, is recoverable exactly up to 1658 characters. */
  lemma AsciiRecoverableIff(bytes: seq<Byte>)
    ensures ValidSize(Size(|bytes|))
    ensures Recoverable(Size(|bytes|), bytes) <==> |bytes| <= 1658
  {
    CapacityOf(|bytes|);
    RecoverableIffFits(Size(|bytes|), bytes);
  }
}
