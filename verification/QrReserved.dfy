/** Building the matrix of reserved modules, from apps/web/src/lib/qr.ts. */
module QrReserved {
  import opened QrVersions
  import opened QrLayout

  /** One of the alignment patterns drawn before (i, j), row by row, covers the cell. */
  ghost predicate AlignedBefore(version: nat, cell: Cell, i: nat, j: nat)
    requires IsVersion(version)
  {
    exists p, q :: 0 <= p < |Spec(version).alignment| && 0 <= q < |Spec(version).alignment|
      && (p < i || (p == i && q < j)) && InAlignment(version, cell, p, q)
  }

  ghost predicate IsSquare(m: array2<bool>, size: nat) {
    m.Length0 == size && m.Length1 == size
  }

  method BlankMatrix(size: nat) returns (matrix: array2<bool>)
    ensures fresh(matrix) && IsSquare(matrix, size)
    ensures forall r, c :: 0 <= r < size && 0 <= c < size ==> !matrix[r, c]
  {
    matrix := new bool[size, size]((_, _) => false);
  }

  method ReserveRow(reserved: array2<bool>, row: nat, left: int, columns: nat)
    requires row < reserved.Length0
    modifies reserved
    ensures forall r, c :: 0 <= r < reserved.Length0 && 0 <= c < reserved.Length1 ==>
      reserved[r, c] == (old(reserved[r, c]) || InBlock(Cell(r, c), row, left, 1, columns))
  {
    var column := left;
    while column < left + columns
      invariant left <= column <= left + columns
      invariant forall r, c :: 0 <= r < reserved.Length0 && 0 <= c < reserved.Length1 ==>
        reserved[r, c] == (old(reserved[r, c]) || InBlock(Cell(r, c), row, left, 1, column - left))
    {
      if 0 <= column < reserved.Length1 {
        reserved[row, column] := true;
      }
      column := column + 1;
    }
  }

  method ReserveBlock(reserved: array2<bool>, top: int, left: int, rows: nat, columns: nat)
    modifies reserved
    ensures forall r, c :: 0 <= r < reserved.Length0 && 0 <= c < reserved.Length1 ==>
      reserved[r, c] == (old(reserved[r, c]) || InBlock(Cell(r, c), top, left, rows, columns))
  {
    var row := top;
    while row < top + rows
      invariant top <= row <= top + rows
      invariant forall r, c :: 0 <= r < reserved.Length0 && 0 <= c < reserved.Length1 ==>
        reserved[r, c] == (old(reserved[r, c]) || InBlock(Cell(r, c), top, left, row - top, columns))
    {
      if 0 <= row < reserved.Length0 {
        ReserveRow(reserved, row, left, columns);
      }
      row := row + 1;
    }
  }

  method ReserveFrame(size: nat) returns (reserved: array2<bool>)
    requires size >= 21
    ensures fresh(reserved) && IsSquare(reserved, size)
    ensures forall r, c :: 0 <= r < size && 0 <= c < size ==> reserved[r, c] == InFrame(Cell(r, c), size)
  {
    reserved := BlankMatrix(size);
    ReserveBlock(reserved, 0, 0, 9, 9);
    ReserveBlock(reserved, 0, size - 8, 9, 8);
    ReserveBlock(reserved, size - 8, 0, 8, 9);
    label finders:
    var index := 0;
    while index < size
      invariant index <= size
      invariant forall r, c :: 0 <= r < size && 0 <= c < size ==>
        reserved[r, c] == (old@finders(reserved[r, c]) || (r == 6 && c < index) || (c == 6 && r < index))
    {
      reserved[6, index] := true;
      reserved[index, 6] := true;
      index := index + 1;
    }
  }

  lemma AlignedStep(version: nat, i: nat, j: nat)
    requires IsVersion(version) && i < |Spec(version).alignment| && j < |Spec(version).alignment|
    ensures forall cell ::
      AlignedBefore(version, cell, i, j + 1) <==> AlignedBefore(version, cell, i, j) || InAlignment(version, cell, i, j)
  {
    forall cell | InAlignment(version, cell, i, j) ensures AlignedBefore(version, cell, i, j + 1) {
    }
  }

  method ReserveAlignments(version: nat, reserved: array2<bool>)
    requires IsVersion(version) && IsSquare(reserved, Size(version))
    modifies reserved
    ensures forall r, c :: 0 <= r < Size(version) && 0 <= c < Size(version) ==>
      reserved[r, c] == (old(reserved[r, c]) || AlignedBefore(version, Cell(r, c), |Spec(version).alignment|, 0))
  {
    var centres := Spec(version).alignment;
    for i := 0 to |centres|
      invariant forall r, c :: 0 <= r < Size(version) && 0 <= c < Size(version) ==>
        reserved[r, c] == (old(reserved[r, c]) || AlignedBefore(version, Cell(r, c), i, 0))
    {
      for j := 0 to |centres|
        invariant forall r, c :: 0 <= r < Size(version) && 0 <= c < Size(version) ==>
          reserved[r, c] == (old(reserved[r, c]) || AlignedBefore(version, Cell(r, c), i, j))
      {
        AlignedStep(version, i, j);
        if !SkipAlignment(centres[i], centres[j], Size(version)) {
          ReserveBlock(reserved, centres[i] - 2, centres[j] - 2, 5, 5);
        }
      }
    }
  }

  /** Exactly the reserved modules are set. */
  method ReservedMatrix(version: nat) returns (reserved: array2<bool>)
    requires IsVersion(version)
    ensures fresh(reserved) && IsSquare(reserved, Size(version))
    ensures forall r, c :: 0 <= r < Size(version) && 0 <= c < Size(version) ==>
      reserved[r, c] == IsReserved(version, Cell(r, c))
  {
    var size := Size(version);
    reserved := ReserveFrame(size);
    ReserveAlignments(version, reserved);
    if version >= 7 {
      ReserveBlock(reserved, 0, size - 11, 6, 3);
      ReserveBlock(reserved, size - 11, 0, 3, 6);
    }
  }
}
