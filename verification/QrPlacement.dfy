/** Placing codewords and format information in the matrix (sections 7.7.3, 7.8 and 7.9 of
  ISO/IEC 18004:2015), from apps/web/src/lib/qr.ts.
 */
module QrPlacement {
  import opened Bytes
  import opened BitStrings
  import opened QrVersions
  import opened QrLayout
  import opened QrCapacity
  import opened QrReserved

  predicate MaskAt(mask: nat, row: nat, column: nat) {
    if mask == 0 then (row + column) % 2 == 0
    else if mask == 1 then row % 2 == 0
    else if mask == 2 then column % 3 == 0
    else if mask == 3 then (row + column) % 3 == 0
    else if mask == 4 then (row / 2 + column / 3) % 2 == 0
    else if mask == 5 then (row * column) % 2 + (row * column) % 3 == 0
    else if mask == 6 then ((row * column) % 2 + (row * column) % 3) % 2 == 0
    else ((row + column) % 2 + (row * column) % 3) % 2 == 0
  }

  /** The plain masks by their corner and what they do from there: a chessboard, stripes across, every
    third column, diagonals of every third column, and a chessboard of tiles two by three. */
  lemma PlainMasks(row: nat, column: nat)
    ensures MaskAt(0, 0, 0) && MaskAt(0, row + 1, column) == MaskAt(0, row, column + 1) == !MaskAt(0, row, column)
    ensures MaskAt(1, 0, 0) && MaskAt(1, row, column + 1) == MaskAt(1, row, column) == !MaskAt(1, row + 1, column)
    ensures MaskAt(2, 0, 0) && !MaskAt(2, 0, 1) && !MaskAt(2, 0, 2)
    ensures MaskAt(2, row + 1, column) == MaskAt(2, row, column) == MaskAt(2, row, column + 3)
    ensures MaskAt(3, 0, 0) && !MaskAt(3, 0, 1) && !MaskAt(3, 0, 2)
    ensures MaskAt(3, row + 1, column + 2) == MaskAt(3, row, column) == MaskAt(3, row, column + 3)
  {
  }

  lemma TileMask(a: nat, b: nat, i: nat, j: nat)
    requires i < 2 && j < 3
    ensures MaskAt(4, 0, 0) && MaskAt(4, 2 * a + i, 3 * b + j) == MaskAt(4, 2 * a, 3 * b)
    ensures MaskAt(4, 2 * a + 2, 3 * b) == MaskAt(4, 2 * a, 3 * b + 3) == !MaskAt(4, 2 * a, 3 * b)
  {
    hide MaskAt;
    InTile(0, 0, 0, 0, 0, 0);
    InTile(2 * a + i, 3 * b + j, a, b, i, j);
    InTile(2 * a, 3 * b, a, b, 0, 0);
    InTile(2 * a + 2, 3 * b, a + 1, b, 0, 0);
    InTile(2 * a, 3 * b + 3, a, b + 1, 0, 0);
  }

  lemma InTile(row: nat, column: nat, a: nat, b: nat, i: nat, j: nat)
    requires row == 2 * a + i && column == 3 * b + j && i < 2 && j < 3
    ensures MaskAt(4, row, column) <==> (a + b) % 2 == 0
  {
    assert row / 2 == a && column / 3 == b;
  }

  /** The product masks by the remainder of the product modulo six. */
  lemma ProductMasks(row: nat, column: nat)
    ensures MaskAt(5, row, column) <==> (row * column) % 6 == 0
    ensures MaskAt(6, row, column) <==> (row * column) % 6 < 3
    ensures MaskAt(7, row, column) <==> ((row + column) % 2 == 0) == ((row * column) % 3 != 1)
  {
    SixResidues(row * column);
    Parity(row + column, row * column);
  }

  lemma SixResidues(p: nat)
    ensures p % 2 + p % 3 == 0 <==> p % 6 == 0
    ensures (p % 2 + p % 3) % 2 == 0 <==> p % 6 < 3
  {
    var r := p % 6;
    assert r % 2 == p % 2 && r % 3 == p % 3;
  }

  lemma Parity(s: nat, p: nat)
    ensures (s % 2 + p % 3) % 2 == 0 <==> (s % 2 == 0) == (p % 3 != 1)
  {
  }

  /** The bit the source takes from the codewords, zero past their end. */
  predicate CodewordBit(codewords: seq<Byte>, index: nat) {
    index / 8 < |codewords| && BitSet(codewords[index / 8], 7 - index % 8)
  }

  lemma CodewordBitIsStreamBit(codewords: seq<Byte>, index: nat)
    requires index < 8 * |codewords|
    ensures CodewordBit(codewords, index) == BytesToBits(codewords)[index]
  {
    ByteBitAt(codewords, index / 8, index % 8);
  }

  // ----- matrices as values

  type Grid = seq<seq<bool>>

  ghost predicate IsGrid(grid: Grid, size: nat) {
    |grid| == size && forall r :: 0 <= r < size ==> |grid[r]| == size
  }

  function RowOf(matrix: array2<bool>, r: nat): (row: seq<bool>)
    requires r < matrix.Length0
    reads matrix
    ensures |row| == matrix.Length1 && forall c :: 0 <= c < |row| ==> row[c] == matrix[r, c]
  {
    seq(matrix.Length1, c requires 0 <= c < matrix.Length1 reads matrix => matrix[r, c])
  }

  /** The matrix as rows of modules. */
  function Rows(matrix: array2<bool>): (grid: Grid)
    reads matrix
    ensures |grid| == matrix.Length0 && forall r :: 0 <= r < |grid| ==> grid[r] == RowOf(matrix, r)
  {
    seq(matrix.Length0, r requires 0 <= r < matrix.Length0 reads matrix => RowOf(matrix, r))
  }

  predicate Inside(cell: Cell, size: nat) {
    cell.row < size && cell.column < size
  }

  predicate At(grid: Grid, cell: Cell)
    requires cell.row < |grid| && cell.column < |grid[cell.row]|
  {
    grid[cell.row][cell.column]
  }

  /** The module that shows codeword bit `k` under a mask. */
  predicate Shown(codewords: seq<Byte>, mask: nat, k: nat, cell: Cell) {
    CodewordBit(codewords, k) != MaskAt(mask, cell.row, cell.column)
  }

  /** The k-th module of `free` shows masked codeword bit k, and every other module is as before. */
  ghost predicate Placed(before: Grid, after: Grid, size: nat, codewords: seq<Byte>, mask: nat, free: seq<Cell>) {
    && IsGrid(before, size) && IsGrid(after, size)
    && (forall k :: 0 <= k < |free| ==>
      Inside(free[k], size) && At(after, free[k]) == Shown(codewords, mask, k, free[k]))
    && (forall cell: Cell :: Inside(cell, size) && cell !in free ==> At(after, cell) == At(before, cell))
  }

  // ----- placing the codewords

  lemma PlacedNext(before: Grid, middle: Grid, after: Grid, size: nat, codewords: seq<Byte>, mask: nat,
                   free: seq<Cell>, cell: Cell)
    requires Placed(before, middle, size, codewords, mask, free) && cell !in free && Inside(cell, size)
    requires IsGrid(after, size) && At(after, cell) == Shown(codewords, mask, |free|, cell)
    requires forall other: Cell :: Inside(other, size) && other != cell ==> At(after, other) == At(middle, other)
    ensures Placed(before, after, size, codewords, mask, free + [cell])
  {
    forall k | 0 <= k < |free| ensures At(after, free[k]) == Shown(codewords, mask, k, free[k]) {
      assert free[k] in free;
    }
  }

  ghost predicate MarksReserved(version: nat, reserved: array2<bool>)
    requires IsVersion(version)
    reads reserved
  {
    IsSquare(reserved, Size(version))
    && forall r, c :: 0 <= r < Size(version) && 0 <= c < Size(version) ==>
      reserved[r, c] == IsReserved(version, Cell(r, c))
  }

  /** The visited modules that are free show the first codeword bits. */
  ghost predicate Progress(version: nat, before: Grid, grid: Grid, codewords: seq<Byte>, mask: nat, visited: seq<Cell>,
                           bitIndex: nat)
    requires IsVersion(version)
  {
    bitIndex == |Free(version, visited)| && Placed(before, grid, Size(version), codewords, mask, Free(version, visited))
  }

  method PlaceModule(version: nat, matrix: array2<bool>, reserved: array2<bool>, codewords: seq<Byte>, mask: nat,
                     cell: Cell, bitIndex: nat, ghost before: Grid, ghost visited: seq<Cell>)
    returns (next: nat)
    requires IsVersion(version) && IsSquare(matrix, Size(version)) && matrix != reserved
    requires MarksReserved(version, reserved)
    requires Inside(cell, Size(version)) && cell !in visited
    requires Progress(version, before, Rows(matrix), codewords, mask, visited, bitIndex)
    modifies matrix
    ensures Progress(version, before, Rows(matrix), codewords, mask, visited + [cell], next)
  {
    ghost var middle := Rows(matrix);
    assert (visited + [cell])[..|visited|] == visited;
    next := bitIndex;
    if !reserved[cell.row, cell.column] {
      var bit := CodewordBit(codewords, bitIndex);
      matrix[cell.row, cell.column] := bit != MaskAt(mask, cell.row, cell.column);
      next := bitIndex + 1;
      FreeCells(version, visited);
      PlacedNext(before, middle, Rows(matrix), Size(version), codewords, mask, Free(version, visited), cell);
    }
  }

  method PlacePair(version: nat, matrix: array2<bool>, reserved: array2<bool>, codewords: seq<Byte>, mask: nat,
                   column: nat, upward: bool, bitIndex: nat, ghost before: Grid, ghost visited: seq<Cell>)
    returns (next: nat)
    requires IsVersion(version) && IsSquare(matrix, Size(version)) && matrix != reserved
    requires MarksReserved(version, reserved)
    requires 1 <= column < Size(version)
    requires forall cell :: cell in visited ==> cell.column > column
    requires Progress(version, before, Rows(matrix), codewords, mask, visited, bitIndex)
    modifies matrix
    ensures Progress(version, before, Rows(matrix), codewords, mask,
                     visited + PairWalk(Size(version), column, upward, Size(version)), next)
  {
    hide MarksReserved, Progress;
    var size := Size(version);
    next := bitIndex;
    ghost var walk: seq<Cell> := [];
    assert visited + walk == visited;
    for step := 0 to size
      invariant walk == PairWalk(size, column, upward, step)
      invariant Progress(version, before, Rows(matrix), codewords, mask, visited + walk, next)
    {
      var row := if upward then size - 1 - step else step;
      ghost var right, left := Cell(row, column), Cell(row, column - 1);
      FreshPair(size, column, upward, step, visited, walk, right, left);
      next := PlaceRow(version, matrix, reserved, codewords, mask, row, column, next, before, visited + walk);
      assert visited + walk + [right, left] == visited + (walk + [right, left]);
      walk := walk + [right, left];
    }
  }

  /** The right module of the pair first. */
  method PlaceRow(version: nat, matrix: array2<bool>, reserved: array2<bool>, codewords: seq<Byte>, mask: nat,
                  row: nat, column: nat, bitIndex: nat, ghost before: Grid, ghost visited: seq<Cell>)
    returns (next: nat)
    requires IsVersion(version) && IsSquare(matrix, Size(version)) && matrix != reserved
    requires MarksReserved(version, reserved)
    requires row < Size(version) && 1 <= column < Size(version)
    requires Cell(row, column) !in visited && Cell(row, column - 1) !in visited
    requires Progress(version, before, Rows(matrix), codewords, mask, visited, bitIndex)
    modifies matrix
    ensures Progress(version, before, Rows(matrix), codewords, mask,
                     visited + [Cell(row, column), Cell(row, column - 1)], next)
  {
    var right, left := Cell(row, column), Cell(row, column - 1);
    next := PlaceModule(version, matrix, reserved, codewords, mask, right, bitIndex, before, visited);
    next := PlaceModule(version, matrix, reserved, codewords, mask, left, next, before, visited + [right]);
    assert visited + [right] + [left] == visited + [right, left];
  }

  lemma FreshPair(size: nat, column: nat, upward: bool, step: nat, visited: seq<Cell>, walk: seq<Cell>, right: Cell,
                  left: Cell)
    requires 1 <= column && step < size && walk == PairWalk(size, column, upward, step)
    requires right == Cell(RowAt(size, upward, step), column) && left == Cell(RowAt(size, upward, step), column - 1)
    requires forall cell :: cell in visited ==> cell.column > column
    ensures right !in visited + walk && left !in visited + walk
  {
    PairWalkCells(size, column, upward, step);
  }

  /** What is visited so far and what is still to come make up the walk. */
  ghost predicate OnTheWay(size: nat, visited: seq<Cell>, right: int, upward: bool) {
    && OnTrack(right) && right < size
    && visited + Walk(size, right, upward) == Walk(size, size - 1, true)
    && forall cell :: cell in visited ==> cell.column > right
  }

  lemma WalkStep(size: nat, visited: seq<Cell>, right: int, upward: bool, column: nat)
    requires OnTheWay(size, visited, right, upward) && right >= 1 && column == if right == 6 then 5 else right
    ensures OnTheWay(size, visited + PairWalk(size, column, upward, size), column - 2, !upward)
    ensures forall cell :: cell in visited ==> cell.column > column
  {
    var pair := PairWalk(size, column, upward, size);
    var rest := Walk(size, column - 2, !upward);
    PairWalkCells(size, column, upward, size);
    assert Walk(size, right, upward) == pair + rest;
    assert (visited + pair) + rest == visited + (pair + rest);
  }

  /** Codeword bits go to the unreserved modules in zigzag order; nothing else changes. */
  method PlaceData(version: nat, matrix: array2<bool>, reserved: array2<bool>, codewords: seq<Byte>, mask: nat)
    requires IsVersion(version) && IsSquare(matrix, Size(version)) && matrix != reserved
    requires MarksReserved(version, reserved)
    modifies matrix
    ensures Placed(old(Rows(matrix)), Rows(matrix), Size(version), codewords, mask, DataPath(version))
  {
    hide PairWalk;
    var size := matrix.Length0;
    var bitIndex := 0;
    var upward := true;
    var right: int := size - 1;
    ghost var visited: seq<Cell> := [];
    ghost var before := Rows(matrix);
    while right >= 1
      invariant OnTheWay(size, visited, right, upward)
      invariant Progress(version, before, Rows(matrix), codewords, mask, visited, bitIndex)
    {
      ghost var here := right;
      if right == 6 {
        right := 5;
      }
      WalkStep(size, visited, here, upward, right);
      bitIndex := PlacePair(version, matrix, reserved, codewords, mask, right, upward, bitIndex, before, visited);
      visited := visited + PairWalk(size, right, upward, size);
      upward := !upward;
      right := right - 2;
    }
    assert visited + [] == visited;
  }
}
