/** Drawing the function patterns (section 6.3 of ISO/IEC 18004:2015), from apps/web/src/lib/qr.ts. */
module QrPatterns {
  import opened Bch
  import opened Gf256
  import opened BitStrings
  import opened QrVersions
  import opened QrLayout
  import opened QrReserved
  import opened QrWords

  // ----- what each pattern looks like

  /** Dark border and dark core: of the rings around the centre only the second is light. */
  predicate FinderDark(row: int, column: int): (dark: bool)
    ensures 0 <= row <= 6 && 0 <= column <= 6 ==>
      (dark <==> !(row in {1, 5} && 1 <= column <= 5) && !(column in {1, 5} && 1 <= row <= 5))
  {
    || row == 0 || row == 6 || column == 0 || column == 6
    || (2 <= row <= 4 && 2 <= column <= 4)
  }

  function Distance(a: int, b: int): nat {
    if a < b then b - a else a - b
  }

  /** Dark outer ring and centre, light inner ring. */
  predicate AlignmentDark(cell: Cell, centreRow: int, centreColumn: int) {
    var down, across := Distance(cell.row, centreRow), Distance(cell.column, centreColumn);
    (if down < across then across else down) != 1
  }

  /** One of the alignment patterns before (i, j) makes the cell dark. */
  ghost predicate AlignedDarkBefore(version: nat, cell: Cell, i: nat, j: nat)
    requires IsVersion(version)
  {
    var centres := Spec(version).alignment;
    exists p, q :: 0 <= p < |centres| && 0 <= q < |centres|
      && (p < i || (p == i && q < j)) && InAlignment(version, cell, p, q)
      && AlignmentDark(cell, centres[p], centres[q])
  }

  predicate TimingRow(cell: Cell, size: nat) {
    cell.row == 6 && 8 <= cell.column < size - 8
  }

  predicate TimingColumn(cell: Cell, size: nat) {
    cell.column == 6 && 8 <= cell.row < size - 8
  }

  predicate FinderAt(cell: Cell, size: nat) {
    || (InBlock(cell, 0, 0, 7, 7) && FinderDark(cell.row, cell.column))
    || (InBlock(cell, 0, size - 7, 7, 7) && FinderDark(cell.row, cell.column - (size - 7)))
    || (InBlock(cell, size - 7, 0, 7, 7) && FinderDark(cell.row - (size - 7), cell.column))
  }

  /** Where version bit `index` goes, three to a line, in either copy. */
  predicate VersionPlace(cell: Cell, edge: nat, index: nat) {
    || cell == Cell(index / 3, edge + index % 3)
    || cell == Cell(edge + index % 3, index / 3)
  }

  /** Either copy lists the bits line by line, one copy by rows and the other by columns. */
  lemma VersionPlaces(cell: Cell, edge: nat, index: nat)
    requires 0 <= cell.row && 0 <= cell.column && index < 18 && edge >= 6
    ensures cell.row < 6 ==>
      (VersionPlace(cell, edge, index) <==> 0 <= cell.column - edge < 3 && index == 3 * cell.row + cell.column - edge)
    ensures cell.column < 6 ==>
      (VersionPlace(cell, edge, index) <==> 0 <= cell.row - edge < 3 && index == 3 * cell.column + cell.row - edge)
    ensures cell.row >= 6 && cell.column >= 6 ==> !VersionPlace(cell, edge, index)
  {
  }

  ghost predicate VersionDark(word: nat, cell: Cell, edge: nat) {
    exists index :: 0 <= index < 18 && VersionPlace(cell, edge, index) && BitSet(word, index)
  }

  /** The colour of every module before data and format are placed. */
  ghost predicate PatternAt(version: nat, cell: Cell)
    requires IsVersion(version)
  {
    var size, count := Size(version), |Spec(version).alignment|;
    if InVersionInfo(version, cell) then VersionDark(VersionWord(version), cell, size - 11)
    else if cell == Cell(size - 8, 8) then true
    else if AlignedBefore(version, cell, count, 0) then AlignedDarkBefore(version, cell, count, 0)
    else if TimingColumn(cell, size) then cell.row % 2 == 0
    else if TimingRow(cell, size) then cell.column % 2 == 0
    else FinderAt(cell, size)
  }

  // ----- what a scanner finds

  /** Only reserved modules are ever dark. */
  lemma PatternsAreReserved(version: nat, cell: Cell)
    requires IsVersion(version) && PatternAt(version, cell)
    ensures IsReserved(version, cell)
  {
  }

  lemma AlignmentPlace(version: nat, cell: Cell, i: nat, j: nat)
    requires IsVersion(version) && i < |Spec(version).alignment| && j < |Spec(version).alignment|
    requires InAlignment(version, cell, i, j)
    ensures !InBlock(cell, 0, 0, 8, 8) && !InBlock(cell, 0, Size(version) - 8, 8, 8)
    ensures !InBlock(cell, Size(version) - 8, 0, 8, 8) && cell != Cell(Size(version) - 8, 8)
    ensures !InVersionInfo(version, cell)
    ensures cell.row == 6 ==> i == 0 && (AlignmentDark(cell, 6, Spec(version).alignment[j]) <==> cell.column % 2 == 0)
    ensures cell.column == 6 ==> j == 0 && (AlignmentDark(cell, Spec(version).alignment[i], 6) <==> cell.row % 2 == 0)
  {
  }

  lemma AlignmentsAreApart(version: nat, cell: Cell, i: nat, j: nat, p: nat, q: nat)
    requires IsVersion(version)
    requires i < |Spec(version).alignment| && j < |Spec(version).alignment| && InAlignment(version, cell, i, j)
    requires p < |Spec(version).alignment| && q < |Spec(version).alignment| && InAlignment(version, cell, p, q)
    ensures i == p && j == q
  {
  }

  /** An alignment pattern that crosses a timing pattern agrees with it. */
  lemma TimingAlternates(version: nat, index: nat)
    requires IsVersion(version) && 8 <= index < Size(version) - 8
    ensures PatternAt(version, Cell(6, index)) <==> index % 2 == 0
    ensures PatternAt(version, Cell(index, 6)) <==> index % 2 == 0
  {
    TimingCell(version, Cell(6, index));
    TimingCell(version, Cell(index, 6));
  }

  lemma TimingCell(version: nat, cell: Cell)
    requires IsVersion(version) && (TimingRow(cell, Size(version)) || TimingColumn(cell, Size(version)))
    ensures PatternAt(version, cell) <==> (if cell.row == 6 then cell.column else cell.row) % 2 == 0
  {
    var centres := Spec(version).alignment;
    if AlignedBefore(version, cell, |centres|, 0) {
      var p, q :| 0 <= p < |centres| && 0 <= q < |centres| && InAlignment(version, cell, p, q);
      AlignmentPlace(version, cell, p, q);
      forall i, j | 0 <= i < |centres| && 0 <= j < |centres| && InAlignment(version, cell, i, j)
        ensures i == p && j == q
      {
        AlignmentsAreApart(version, cell, i, j, p, q);
      }
    }
  }

  /** A finder pattern with a light separator: what a scanner looks for in three corners. */
  predicate FinderOrSeparator(row: int, column: int) {
    0 <= row < 7 && 0 <= column < 7 && FinderDark(row, column)
  }

  /** Three finder patterns, each with its separator, whatever the version. */
  lemma FindersAreSeen(version: nat, cell: Cell)
    requires IsVersion(version)
    ensures InBlock(cell, 0, 0, 8, 8) ==> PatternAt(version, cell) == FinderOrSeparator(cell.row, cell.column)
    ensures InBlock(cell, 0, Size(version) - 8, 8, 8) ==>
      PatternAt(version, cell) == FinderOrSeparator(cell.row, cell.column - (Size(version) - 7))
    ensures InBlock(cell, Size(version) - 8, 0, 8, 8) ==>
      PatternAt(version, cell) == FinderOrSeparator(cell.row - (Size(version) - 7), cell.column)
  {
    var size := Size(version);
    if InBlock(cell, 0, 0, 8, 8) || InBlock(cell, 0, size - 8, 8, 8) || InBlock(cell, size - 8, 0, 8, 8) {
      FinderCell(version, cell);
    }
  }

  lemma FinderCell(version: nat, cell: Cell)
    requires IsVersion(version)
    requires var size := Size(version);
      InBlock(cell, 0, 0, 8, 8) || InBlock(cell, 0, size - 8, 8, 8) || InBlock(cell, size - 8, 0, 8, 8)
    ensures PatternAt(version, cell) == FinderAt(cell, Size(version))
  {
    forall i, j | 0 <= i < |Spec(version).alignment| && 0 <= j < |Spec(version).alignment|
      ensures !InAlignment(version, cell, i, j)
    {
      if InAlignment(version, cell, i, j) { AlignmentPlace(version, cell, i, j); }
    }
  }

  // ----- drawing

  method DrawFinder(matrix: array2<bool>, top: nat, left: nat)
    requires top + 7 <= matrix.Length0 && left + 7 <= matrix.Length1
    modifies matrix
    ensures forall r, c :: 0 <= r < matrix.Length0 && 0 <= c < matrix.Length1 ==>
      matrix[r, c] == if InBlock(Cell(r, c), top, left, 7, 7) then FinderDark(r - top, c - left) else old(matrix[r, c])
  {
    for row := 0 to 7
      invariant forall r, c :: 0 <= r < matrix.Length0 && 0 <= c < matrix.Length1 ==>
        (matrix[r, c] ==
         if InBlock(Cell(r, c), top, left, row, 7) then FinderDark(r - top, c - left) else old(matrix[r, c]))
    {
      for column := 0 to 7
        invariant forall r, c :: 0 <= r < matrix.Length0 && 0 <= c < matrix.Length1 ==>
          (matrix[r, c] ==
           if InBlock(Cell(r, c), top, left, row, 7) || InBlock(Cell(r, c), top + row, left, 1, column)
           then FinderDark(r - top, c - left) else old(matrix[r, c]))
      {
        matrix[top + row, left + column] := FinderDark(row, column);
      }
    }
  }

  method DrawAlignment(matrix: array2<bool>, centreRow: nat, centreColumn: nat)
    requires 2 <= centreRow < matrix.Length0 - 2 && 2 <= centreColumn < matrix.Length1 - 2
    modifies matrix
    ensures forall r, c :: 0 <= r < matrix.Length0 && 0 <= c < matrix.Length1 ==>
      (matrix[r, c] == if InBlock(Cell(r, c), centreRow - 2, centreColumn - 2, 5, 5)
        then AlignmentDark(Cell(r, c), centreRow, centreColumn) else old(matrix[r, c]))
  {
    for row := -2 to 3
      invariant forall r, c :: 0 <= r < matrix.Length0 && 0 <= c < matrix.Length1 ==>
        (matrix[r, c] ==
         if InBlock(Cell(r, c), centreRow - 2, centreColumn - 2, row + 2, 5)
         then AlignmentDark(Cell(r, c), centreRow, centreColumn) else old(matrix[r, c]))
    {
      for column := -2 to 3
        invariant forall r, c :: 0 <= r < matrix.Length0 && 0 <= c < matrix.Length1 ==>
          (matrix[r, c] ==
           if InBlock(Cell(r, c), centreRow - 2, centreColumn - 2, row + 2, 5)
              || InBlock(Cell(r, c), centreRow + row, centreColumn - 2, 1, column + 2)
           then AlignmentDark(Cell(r, c), centreRow, centreColumn) else old(matrix[r, c]))
      {
        matrix[centreRow + row, centreColumn + column] :=
          AlignmentDark(Cell(centreRow + row, centreColumn + column), centreRow, centreColumn);
      }
    }
  }

  method DrawTiming(matrix: array2<bool>, size: nat)
    requires IsSquare(matrix, size) && size >= 21
    modifies matrix
    ensures forall r, c :: 0 <= r < size && 0 <= c < size ==>
      (matrix[r, c] ==
       if TimingColumn(Cell(r, c), size) then r % 2 == 0
       else if TimingRow(Cell(r, c), size) then c % 2 == 0
       else old(matrix[r, c]))
  {
    for index := 8 to size - 8
      invariant forall r, c :: 0 <= r < size && 0 <= c < size ==>
        (matrix[r, c] ==
         if c == 6 && 8 <= r < index then r % 2 == 0
         else if r == 6 && 8 <= c < index then c % 2 == 0
         else old(matrix[r, c]))
    {
      var dark := index % 2 == 0;
      matrix[6, index] := dark;
      matrix[index, 6] := dark;
    }
  }

  /** The colour of a cell once the alignment patterns before (i, j) are drawn. */
  ghost predicate WithAlignments(version: nat, cell: Cell, i: nat, j: nat, was: bool)
    requires IsVersion(version)
  {
    if AlignedBefore(version, cell, i, j) then AlignedDarkBefore(version, cell, i, j) else was
  }

  lemma AlignmentStep(version: nat, i: nat, j: nat, cell: Cell, was: bool)
    requires IsVersion(version) && i < |Spec(version).alignment| && j < |Spec(version).alignment|
    ensures InAlignment(version, cell, i, j) ==>
      WithAlignments(version, cell, i, j + 1, was)
        == AlignmentDark(cell, Spec(version).alignment[i], Spec(version).alignment[j])
    ensures !InAlignment(version, cell, i, j) ==>
      WithAlignments(version, cell, i, j + 1, was) == WithAlignments(version, cell, i, j, was)
  {
    var centres := Spec(version).alignment;
    AlignedStep(version, i, j);
    forall p, q | 0 <= p < |centres| && 0 <= q < |centres|
      && InAlignment(version, cell, p, q) && InAlignment(version, cell, i, j)
      ensures p == i && q == j
    {
      AlignmentsAreApart(version, cell, p, q, i, j);
    }
  }

  lemma NextLine(version: nat, i: nat, cell: Cell, was: bool)
    requires IsVersion(version) && i < |Spec(version).alignment|
    ensures WithAlignments(version, cell, i, |Spec(version).alignment|, was)
      == WithAlignments(version, cell, i + 1, 0, was)
  {
  }

  method DrawAlignmentAt(version: nat, matrix: array2<bool>, i: nat, j: nat)
    requires IsVersion(version) && IsSquare(matrix, Size(version))
    requires i < |Spec(version).alignment| && j < |Spec(version).alignment|
    modifies matrix
    ensures forall r, c, was ::
      0 <= r < Size(version) && 0 <= c < Size(version)
        && old(matrix[r, c]) == WithAlignments(version, Cell(r, c), i, j, was) ==>
        matrix[r, c] == WithAlignments(version, Cell(r, c), i, j + 1, was)
  {
    var centres := Spec(version).alignment;
    forall r, c, was | 0 <= r < Size(version) && 0 <= c < Size(version)
      ensures InAlignment(version, Cell(r, c), i, j) ==>
        WithAlignments(version, Cell(r, c), i, j + 1, was) == AlignmentDark(Cell(r, c), centres[i], centres[j])
      ensures !InAlignment(version, Cell(r, c), i, j) ==>
        WithAlignments(version, Cell(r, c), i, j + 1, was) == WithAlignments(version, Cell(r, c), i, j, was)
    {
      AlignmentStep(version, i, j, Cell(r, c), was);
    }
    if !SkipAlignment(centres[i], centres[j], Size(version)) {
      DrawAlignment(matrix, centres[i], centres[j]);
    }
  }

  method DrawAlignments(version: nat, matrix: array2<bool>)
    requires IsVersion(version) && IsSquare(matrix, Size(version))
    modifies matrix
    ensures forall r, c :: 0 <= r < Size(version) && 0 <= c < Size(version) ==>
      matrix[r, c] == WithAlignments(version, Cell(r, c), |Spec(version).alignment|, 0, old(matrix[r, c]))
  {
    var count := |Spec(version).alignment|;
    for i := 0 to count
      invariant forall r, c :: 0 <= r < Size(version) && 0 <= c < Size(version) ==>
        matrix[r, c] == WithAlignments(version, Cell(r, c), i, 0, old(matrix[r, c]))
    {
      for j := 0 to count
        invariant forall r, c :: 0 <= r < Size(version) && 0 <= c < Size(version) ==>
          matrix[r, c] == WithAlignments(version, Cell(r, c), i, j, old(matrix[r, c]))
      {
        DrawAlignmentAt(version, matrix, i, j);
      }
      forall r, c | 0 <= r < Size(version) && 0 <= c < Size(version)
        ensures matrix[r, c] == WithAlignments(version, Cell(r, c), i + 1, 0, old(matrix[r, c]))
      {
        NextLine(version, i, Cell(r, c), old(matrix[r, c]));
      }
    }
  }

  /** The multiple of the generator with the version in its high bits. */
  method VersionBits(version: nat) returns (bits: nat)
    requires IsVersion(version)
    ensures bits / 4096 == version && IsMultiple(bits, 0x1f25)
    ensures bits == VersionWord(version)
  {
    ghost var n: nat :| n == 12;
    var remainder := version;
    for index := 0 to 12
      invariant remainder == Divide(version, VERSION_GENERATOR, n, index) && remainder < 4096
    {
      VersionRound(remainder, n);
      remainder := 2 * remainder;
      if remainder / 4096 % 2 == 1 {
        remainder := Xor(remainder, 0x1f25);
      }
    }
    bits := version * 4096 + remainder;
    VersionWordEnds(version, remainder, n);
    VersionWordIs(version, bits, n);
  }

  /** The one bit that a module of either copy shows. */
  lemma VersionIndex(bits: nat, cell: Cell, edge: nat) returns (index: nat)
    requires 6 <= edge && (InBlock(cell, 0, edge, 6, 3) || InBlock(cell, edge, 0, 3, 6))
    ensures index < 18 && VersionPlace(cell, edge, index)
    ensures VersionDark(bits, cell, edge) == BitSet(bits, index)
  {
    hide BitSet;
    index := if cell.row < 6 then 3 * cell.row + (cell.column - edge) else 3 * cell.column + (cell.row - edge);
    assert VersionPlace(cell, edge, index);
    assert forall k :: 0 <= k < 18 && VersionPlace(cell, edge, k) ==> k == index;
  }

  method DrawVersionInfo(matrix: array2<bool>, bits: nat, edge: nat)
    requires 6 <= edge && IsSquare(matrix, edge + 11)
    modifies matrix
    ensures forall r, c :: 0 <= r < edge + 11 && 0 <= c < edge + 11 ==>
      (matrix[r, c] ==
       if InBlock(Cell(r, c), 0, edge, 6, 3) || InBlock(Cell(r, c), edge, 0, 3, 6)
       then VersionDark(bits, Cell(r, c), edge) else old(matrix[r, c]))
  {
    hide VersionDark, BitSet;
    for index := 0 to 18
      invariant forall r, c, k ::
        0 <= r < edge + 11 && 0 <= c < edge + 11 && 0 <= k < index && VersionPlace(Cell(r, c), edge, k) ==>
          matrix[r, c] == BitSet(bits, k)
      invariant forall r, c :: 0 <= r < edge + 11 && 0 <= c < edge + 11 ==>
        InBlock(Cell(r, c), 0, edge, 6, 3) || InBlock(Cell(r, c), edge, 0, 3, 6) || matrix[r, c] == old(matrix[r, c])
    {
      var dark := BitSet(bits, index);
      var row, column := index / 3, index % 3;
      matrix[row, edge + column] := dark;
      matrix[edge + column, row] := dark;
    }
    forall r, c | 0 <= r < edge + 11 && 0 <= c < edge + 11
      && (InBlock(Cell(r, c), 0, edge, 6, 3) || InBlock(Cell(r, c), edge, 0, 3, 6))
      ensures matrix[r, c] == VersionDark(bits, Cell(r, c), edge)
    {
      var index := VersionIndex(bits, Cell(r, c), edge);
    }
  }

  /** Timing over finders. */
  predicate FrameAt(cell: Cell, size: nat) {
    if TimingColumn(cell, size) then cell.row % 2 == 0
    else if TimingRow(cell, size) then cell.column % 2 == 0
    else FinderAt(cell, size)
  }

  method DrawFrame(size: nat) returns (matrix: array2<bool>)
    requires size >= 21
    ensures fresh(matrix) && IsSquare(matrix, size)
    ensures forall r, c :: 0 <= r < size && 0 <= c < size ==> matrix[r, c] == FrameAt(Cell(r, c), size)
  {
    matrix := BlankMatrix(size);
    DrawFinder(matrix, 0, 0);
    DrawFinder(matrix, 0, size - 7);
    DrawFinder(matrix, size - 7, 0);
    DrawTiming(matrix, size);
  }

  /** The layers in the order in which they are drawn. */
  lemma PatternLayers(version: nat, cell: Cell)
    requires IsVersion(version)
    ensures var size, count := Size(version), |Spec(version).alignment|;
      PatternAt(version, cell) ==
        if InVersionInfo(version, cell) then VersionDark(VersionWord(version), cell, size - 11)
        else if cell == Cell(size - 8, 8) then true
        else WithAlignments(version, cell, count, 0, FrameAt(cell, size))
  {
    hide AlignedBefore, AlignedDarkBefore, VersionDark, VersionWord, FinderAt;
  }

  lemma VersionInfoBlocks(version: nat, cell: Cell)
    requires IsVersion(version) && cell.row < Size(version) && cell.column < Size(version)
    ensures InVersionInfo(version, cell) <==>
      version >= 7 && (InBlock(cell, 0, Size(version) - 11, 6, 3) || InBlock(cell, Size(version) - 11, 0, 3, 6))
  {
  }

  /** All function patterns of the version, and nothing else. */
  method FunctionPatterns(version: nat) returns (matrix: array2<bool>)
    requires IsVersion(version)
    ensures fresh(matrix) && IsSquare(matrix, Size(version))
    ensures forall r, c :: 0 <= r < Size(version) && 0 <= c < Size(version) ==>
      matrix[r, c] == PatternAt(version, Cell(r, c))
  {
    hide PatternAt, WithAlignments, VersionDark, VersionWord, FrameAt, InVersionInfo, InBlock;
    var size := Size(version);
    matrix := DrawFrame(size);
    DrawAlignments(version, matrix);
    matrix[size - 8, 8] := true;
    if version >= 7 {
      var bits := VersionBits(version);
      DrawVersionInfo(matrix, bits, size - 11);
    }
    forall r, c | 0 <= r < size && 0 <= c < size ensures matrix[r, c] == PatternAt(version, Cell(r, c)) {
      PatternLayers(version, Cell(r, c));
      VersionInfoBlocks(version, Cell(r, c));
    }
  }
}
