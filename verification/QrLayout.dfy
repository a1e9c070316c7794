/** Which modules of a symbol carry data and in which order they are visited
  (sections 6.3 and 7.7.3 of ISO/IEC 18004:2015), as apps/web/src/lib/qr.ts lays them out.
 */
module QrLayout {
  import opened Arithmetic
  import opened QrVersions
  import opened Sequences

  datatype Cell = Cell(row: nat, column: nat)

  // ----- reserved modules

  /** The centres that would cover part of a finder. */
  predicate SkipAlignment(row: nat, column: nat, size: nat) {
    (row <= 8 && column <= 8) || (row <= 8 && column + 9 >= size) || (row + 9 >= size && column <= 8)
  }

  predicate InBlock(cell: Cell, top: int, left: int, rows: nat, columns: nat) {
    top <= cell.row < top + rows && left <= cell.column < left + columns
  }

  predicate InAlignment(version: nat, cell: Cell, i: nat, j: nat)
    requires IsVersion(version)
    requires i < |Spec(version).alignment| && j < |Spec(version).alignment|
  {
    var centres := Spec(version).alignment;
    !SkipAlignment(centres[i], centres[j], Size(version)) && InBlock(cell, centres[i] - 2, centres[j] - 2, 5, 5)
  }

  /** Finders with separators and format information, and the timing patterns. */
  predicate InFrame(cell: Cell, size: nat) {
    || InBlock(cell, 0, 0, 9, 9)
    || InBlock(cell, 0, size - 8, 9, 8)
    || InBlock(cell, size - 8, 0, 8, 9)
    || cell.row == 6
    || cell.column == 6
  }

  predicate InVersionInfo(version: nat, cell: Cell) {
    version >= 7 && (InBlock(cell, 0, Size(version) - 11, 6, 3) || InBlock(cell, Size(version) - 11, 0, 3, 6))
  }

  /** Modules that never carry data. */
  ghost predicate IsReserved(version: nat, cell: Cell)
    requires IsVersion(version)
  {
    || InFrame(cell, Size(version))
    || (exists i, j :: 0 <= i < |Spec(version).alignment| && 0 <= j < |Spec(version).alignment|
          && InAlignment(version, cell, i, j))
    || InVersionInfo(version, cell)
  }

  // ----- the zigzag walk

  function RowAt(size: nat, upward: bool, step: nat): nat
    requires step < size
  {
    if upward then size - 1 - step else step
  }

  /** The first `steps` rows of a column pair, the right module of each row first. */
  function PairWalk(size: nat, column: nat, upward: bool, steps: nat): seq<Cell>
    requires steps <= size && column >= 1
  {
    if steps == 0 then []
    else
      var row := RowAt(size, upward, steps - 1);
      PairWalk(size, column, upward, steps - 1) + [Cell(row, column), Cell(row, column - 1)]
  }

  /** The column pairs from `right` leftwards, alternating direction, stepping over column 6. */
  function Walk(size: nat, right: int, upward: bool): seq<Cell>
    decreases right
  {
    if right < 1 then []
    else
      var column := if right == 6 then 5 else right;
      PairWalk(size, column, upward, size) + Walk(size, column - 2, !upward)
  }

  /** The right columns that the walk reaches from the right edge of an odd-sized symbol. */
  predicate OnTrack(right: int) {
    (right >= 6 && right % 2 == 0) || (-1 <= right <= 3 && right % 2 == 1)
  }

  lemma {:induction false} PairWalkCells(size: nat, column: nat, upward: bool, steps: nat)
    requires steps <= size && column >= 1
    ensures forall cell :: cell in PairWalk(size, column, upward, steps) ==>
      cell.row < size && column - 1 <= cell.column <= column
      && (if upward then size - steps <= cell.row else cell.row < steps)
    ensures Distinct(PairWalk(size, column, upward, steps))
  {
    if steps > 0 {
      PairWalkCells(size, column, upward, steps - 1);
    }
  }

  lemma {:induction false} PairWalkCovers(size: nat, column: nat, upward: bool, steps: nat, cell: Cell)
    requires steps <= size && column >= 1
    requires cell.row < size && column - 1 <= cell.column <= column
    requires if upward then size - steps <= cell.row else cell.row < steps
    ensures cell in PairWalk(size, column, upward, steps)
    decreases steps
  {
    var walk := PairWalk(size, column, upward, steps);
    if cell.row == RowAt(size, upward, steps - 1) {
      assert walk[|walk| - 2] == Cell(cell.row, column) && walk[|walk| - 1] == Cell(cell.row, column - 1);
    } else {
      PairWalkCovers(size, column, upward, steps - 1, cell);
    }
  }

  ghost predicate Apart<T>(a: seq<T>, b: seq<T>) {
    forall i, j :: 0 <= i < |a| && 0 <= j < |b| ==> a[i] != b[j]
  }

  lemma DistinctAppend<T>(a: seq<T>, b: seq<T>)
    requires Distinct(a) && Distinct(b) && Apart(a, b)
    ensures Distinct(a + b)
  {
  }

  /** The walk stays inside, avoids column 6 and visits no module twice. */
  lemma {:induction false} WalkCells(size: nat, right: int, upward: bool)
    requires OnTrack(right)
    ensures forall cell :: cell in Walk(size, right, upward) ==>
      cell.row < size && cell.column <= right && cell.column != 6
    ensures Distinct(Walk(size, right, upward))
    decreases right
  {
    hide PairWalk;
    if right >= 1 {
      var column := if right == 6 then 5 else right;
      var first, rest := PairWalk(size, column, upward, size), Walk(size, column - 2, !upward);
      PairWalkCells(size, column, upward, size);
      WalkCells(size, column - 2, !upward);
      forall cell: Cell | cell in first + rest ensures cell.row < size && cell.column <= right && cell.column != 6 {
        assert cell in first || cell in rest;
      }
      forall i, j | 0 <= i < |first| && 0 <= j < |rest| ensures first[i] != rest[j] {
        assert first[i] in first && rest[j] in rest;
      }
      DistinctAppend(first, rest);
    }
  }

  /** The walk visits every module outside column 6. */
  lemma {:induction false} WalkCovers(size: nat, right: int, upward: bool, cell: Cell)
    requires OnTrack(right) && cell.row < size && cell.column <= right && cell.column != 6
    ensures cell in Walk(size, right, upward)
    decreases right
  {
    var column := if right == 6 then 5 else right;
    if cell.column >= column - 1 {
      PairWalkCovers(size, column, upward, size, cell);
    } else {
      WalkCovers(size, column - 2, !upward, cell);
    }
  }

  /** The modules that the walk visits. */
  predicate OnWalk(size: nat, cell: Cell) {
    cell.row < size && cell.column < size && cell.column != 6
  }

  lemma WalkVisits(version: nat, cell: Cell)
    ensures cell in Walk(Size(version), Size(version) - 1, true) <==> OnWalk(Size(version), cell)
  {
    var size := Size(version);
    WalkCells(size, size - 1, true);
    if OnWalk(size, cell) {
      WalkCovers(size, size - 1, true, cell);
    }
  }

  /** Each module outside column 6 is visited exactly once, and column 6 never. */
  lemma ZigzagVisitsOnce(version: nat, walk: seq<Cell>)
    requires walk == Walk(Size(version), Size(version) - 1, true)
    ensures Distinct(walk) && forall cell: Cell :: cell in walk <==> OnWalk(Size(version), cell)
  {
    WalkCells(Size(version), Size(version) - 1, true);
    forall cell: Cell ensures cell in walk <==> OnWalk(Size(version), cell) {
      WalkVisits(version, cell);
    }
  }

  // ----- in which order

  /** The column as if column 6 were not there, so that pairs start at the odd ones. */
  function Shifted(column: nat): nat {
    if column > 6 then column else column + 1
  }

  /** Which pair of columns a module is in, counted from the right edge. */
  function PairOf(size: nat, cell: Cell): int {
    (size - 1 - Shifted(cell.column)) / 2
  }

  /** How far up an even pair, or down an odd one. */
  function StepOf(size: nat, cell: Cell): int {
    if PairOf(size, cell) % 2 == 0 then size - 1 - cell.row else cell.row
  }

  /** Pairs from right to left, then rows along the pair's direction, then right before left. */
  predicate Sooner(size: nat, a: Cell, b: Cell) {
    || PairOf(size, a) < PairOf(size, b)
    || (PairOf(size, a) == PairOf(size, b)
        && (StepOf(size, a) < StepOf(size, b) || (StepOf(size, a) == StepOf(size, b) && a.column > b.column)))
  }

  ghost predicate InOrder(size: nat, cells: seq<Cell>) {
    forall i, j :: 0 <= i < j < |cells| ==> Sooner(size, cells[i], cells[j])
  }

  lemma {:induction false} PairLength(size: nat, column: nat, upward: bool, steps: nat)
    requires steps <= size && column >= 1
    ensures |PairWalk(size, column, upward, steps)| == 2 * steps
  {
    if steps > 0 { PairLength(size, column, upward, steps - 1); }
  }

  lemma {:induction false} PairEntry(size: nat, column: nat, upward: bool, steps: nat, s: nat, o: nat)
    requires s < steps <= size && column >= 1 && o < 2
    ensures 2 * s + o < |PairWalk(size, column, upward, steps)|
    ensures PairWalk(size, column, upward, steps)[2 * s + o] == Cell(if upward then size - 1 - s else s, column - o)
  {
    PairLength(size, column, upward, steps - 1);
    if s < steps - 1 { PairEntry(size, column, upward, steps - 1, s, o); }
  }

  /** The right column of pair `p` of a walk that starts at `right`. */
  function PairColumn(right: int, p: nat): int {
    if right >= 6 && right - 2 * p <= 6 then right - 2 * p - 1 else right - 2 * p
  }

  lemma EntryInFront<T>(a: seq<T>, b: seq<T>, k: nat)
    requires k < |a|
    ensures k < |a + b| && (a + b)[k] == a[k]
  {
  }

  lemma EntryBehind<T>(a: seq<T>, b: seq<T>, k: nat)
    requires k < |b|
    ensures |a| + k < |a + b| && (a + b)[|a| + k] == b[k]
  {
  }

  lemma WalkSplits(size: nat, right: int, upward: bool, column: int)
    requires right >= 1 && column == if right == 6 then 5 else right
    ensures Walk(size, right, upward) == PairWalk(size, column, upward, size) + Walk(size, column - 2, !upward)
  {
  }

  lemma NextColumn(right: int, p: nat, column: int)
    requires OnTrack(right) && PairColumn(right, p) >= 1 && column == if right == 6 then 5 else right
    ensures right >= 1 && column >= 1 && OnTrack(column - 2)
    ensures if p == 0 then PairColumn(right, p) == column else PairColumn(column - 2, p - 1) == PairColumn(right, p)
  {
  }

  lemma {:induction false} WalkEntryFrom(size: nat, right: int, upward: bool, p: nat, s: nat, o: nat, k: nat)
    requires OnTrack(right) && PairColumn(right, p) >= 1 && s < size && o < 2 && k == 2 * (Times(p, size) + s) + o
    ensures k < |Walk(size, right, upward)|
    ensures Walk(size, right, upward)[k]
      == Cell(if upward == (p % 2 == 0) then size - 1 - s else s, PairColumn(right, p) - o)
    decreases p
  {
    hide PairWalk, Walk, OnTrack, PairColumn;
    var column := if right == 6 then 5 else right;
    NextColumn(right, p, column);
    var pair, rest := PairWalk(size, column, upward, size), Walk(size, column - 2, !upward);
    WalkSplits(size, right, upward, column);
    PairLength(size, column, upward, size);
    if p == 0 {
      PairEntry(size, column, upward, size, s, o);
      EntryInFront(pair, rest, k);
    } else {
      WalkEntryFrom(size, column - 2, !upward, p - 1, s, o, k - 2 * size);
      EntryBehind(pair, rest, k - 2 * size);
    }
  }

  /** Row `s` of pair `p` comes after `size * p + s` others, and of its modules the right one first. Pairs
    go up and down in turn; they start at the right edge and step over column 6. */
  lemma WalkEntry(version: nat, walk: seq<Cell>, size: nat, p: nat, s: nat, o: nat)
    requires size == Size(version) && walk == Walk(size, size - 1, true) && 2 * p + 1 < size && s < size && o < 2
    ensures 2 * (size * p + s) + o < |walk|
    ensures walk[2 * (size * p + s) + o] ==
      Cell(if p % 2 == 0 then size - 1 - s else s,
           if size - 1 - 2 * p <= 6 then size - 2 - 2 * p - o else size - 1 - 2 * p - o)
  {
    TimesIsProduct(p, size);
    WalkEntryFrom(size, size - 1, true, p, s, o, 2 * (Times(p, size) + s) + o);
  }

  /** The pair that a walk starts with. */
  function FirstPair(size: nat, right: int): int {
    if right >= 6 then (size - 1 - right) / 2 else (size - 2 - right) / 2
  }

  lemma {:induction false} PairInOrder(size: nat, column: nat, upward: bool, steps: nat)
    requires steps <= size && 1 <= column < size && size % 2 == 1 && column != 6
    requires if column > 6 then column % 2 == 0 else column % 2 == 1
    requires upward <==> PairOf(size, Cell(0, column)) % 2 == 0
    ensures InOrder(size, PairWalk(size, column, upward, steps))
  {
    if steps > 0 {
      hide Sooner, PairOf;
      var before, row := PairWalk(size, column, upward, steps - 1), RowAt(size, upward, steps - 1);
      PairInOrder(size, column, upward, steps - 1);
      PairWalkCells(size, column, upward, steps - 1);
      forall i | 0 <= i < |before|
        ensures Sooner(size, before[i], Cell(row, column)) && Sooner(size, before[i], Cell(row, column - 1))
      {
        assert before[i] in before;
        SamePair(size, column, upward, before[i], row, steps - 1);
      }
      SameRow(size, column, row);
    }
  }

  lemma SamePair(size: nat, column: nat, upward: bool, earlier: Cell, row: nat, step: nat)
    requires step < size && row == RowAt(size, upward, step) && 1 <= column < size && size % 2 == 1 && column != 6
    requires if column > 6 then column % 2 == 0 else column % 2 == 1
    requires upward <==> PairOf(size, Cell(0, column)) % 2 == 0
    requires earlier.row < size && column - 1 <= earlier.column <= column
    requires if upward then size - step <= earlier.row else earlier.row < step
    ensures Sooner(size, earlier, Cell(row, column)) && Sooner(size, earlier, Cell(row, column - 1))
  {
    HalfPairs(size, column);
  }

  lemma SameRow(size: nat, column: nat, row: nat)
    requires 1 <= column < size && size % 2 == 1 && column != 6
    requires if column > 6 then column % 2 == 0 else column % 2 == 1
    ensures Sooner(size, Cell(row, column), Cell(row, column - 1))
  {
    HalfPairs(size, column);
  }

  /** Both columns of a pair belong to it. */
  lemma HalfPairs(size: nat, column: nat)
    requires 1 <= column < size && size % 2 == 1 && column != 6
    requires if column > 6 then column % 2 == 0 else column % 2 == 1
    ensures (size - 1 - Shifted(column)) / 2 == (size - 1 - Shifted(column - 1)) / 2
  {
  }

  lemma LaterPair(size: nat, column: nat, first: Cell, later: Cell)
    requires 1 <= column < size && size % 2 == 1 && column != 6
    requires if column > 6 then column % 2 == 0 else column % 2 == 1
    requires column - 1 <= first.column <= column && later.column < column - 1 && later.column != 6
    ensures Sooner(size, first, later)
  {
    HalfPairs(size, column);
  }

  lemma NextPair(size: nat, right: int, column: nat)
    requires OnTrack(right) && 1 <= right < size && size % 2 == 1 && column == if right == 6 then 5 else right
    ensures FirstPair(size, column - 2) == FirstPair(size, right) + 1
    ensures PairOf(size, Cell(0, column)) == FirstPair(size, right)
  {
  }

  lemma {:induction false} WalkInOrder(size: nat, right: int, upward: bool)
    requires OnTrack(right) && right < size && size % 2 == 1
    requires upward <==> FirstPair(size, right) % 2 == 0
    ensures InOrder(size, Walk(size, right, upward))
    decreases right
  {
    hide PairWalk, Sooner, FirstPair, PairOf;
    if right >= 1 {
      var column := if right == 6 then 5 else right;
      var first, rest := PairWalk(size, column, upward, size), Walk(size, column - 2, !upward);
      NextPair(size, right, column);
      PairInOrder(size, column, upward, size);
      PairWalkCells(size, column, upward, size);
      WalkInOrder(size, column - 2, !upward);
      WalkCells(size, column - 2, !upward);
      forall i, j | 0 <= i < |first| && 0 <= j < |rest| ensures Sooner(size, first[i], rest[j]) {
        assert first[i] in first && rest[j] in rest;
        LaterPair(size, column, first[i], rest[j]);
      }
    }
  }
}
