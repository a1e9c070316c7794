/** Format information: which mask a symbol uses (section 7.9 of ISO/IEC 18004:2015),
  from apps/web/src/lib/qr.ts.
 */
module QrFormat {
  import opened Bch
  import opened Bytes
  import opened Gf256
  import opened BitStrings
  import opened QrVersions
  import opened QrLayout
  import opened QrReserved
  import opened QrPlacement
  import opened QrWords

  /** The copy around the upper left finder. */
  function FormatA(index: nat): Cell
    requires index < 15
  {
    if index <= 5 then Cell(index, 8)
    else if index == 6 then Cell(7, 8)
    else if index == 7 then Cell(8, 8)
    else if index == 8 then Cell(8, 7)
    else Cell(8, 14 - index)
  }

  /** The copy split between the other two finders. */
  function FormatB(size: nat, index: nat): Cell
    requires index < 15 && size >= 21
  {
    if index < 8 then Cell(8, size - 1 - index) else Cell(size - 15 + index, 8)
  }

  /** From the top right, diagonal after diagonal. */
  predicate DiagonalBefore(a: Cell, b: Cell) {
    a.row - a.column < b.row - b.column
  }

  /** Both copies list their modules in one direction, the first around the corner and the second along
    the two opposite edges. */
  lemma CopiesInOrder(size: nat, j: nat, k: nat)
    requires j < k < 15 && size >= 21
    ensures DiagonalBefore(FormatA(j), FormatA(k)) && DiagonalBefore(FormatB(size, j), FormatB(size, k))
    ensures FormatA(k).row <= 8 && FormatA(k).column <= 8 && FormatA(j).row <= 8 && FormatA(j).column <= 8
    ensures InSecondCopy(FormatB(size, j), size) && InSecondCopy(FormatB(size, k), size)
  {
  }

  ghost predicate IsFormatCell(size: nat, cell: Cell)
    requires size >= 21
  {
    cell == Cell(size - 8, 8) || exists k :: 0 <= k < 15 && (cell == FormatA(k) || cell == FormatB(size, k))
  }

  lemma FormatShape(size: nat, cell: Cell)
    requires size >= 21 && Inside(cell, size)
    ensures IsFormatCell(size, cell) <==>
      || (cell.column == 8 && ((cell.row <= 8 && cell.row != 6) || cell.row >= size - 8))
      || (cell.row == 8 && ((cell.column <= 8 && cell.column != 6) || cell.column >= size - 8))
  {
    if cell.column == 8 && cell.row <= 8 && cell.row != 6 {
      assert cell == FormatA(if cell.row <= 5 then cell.row else cell.row - 1);
    } else if cell.row == 8 && cell.column <= 7 && cell.column != 6 {
      assert cell == FormatA(if cell.column <= 5 then 14 - cell.column else 8);
    } else if cell.row == 8 && cell.column >= size - 8 {
      assert cell == FormatB(size, size - 1 - cell.column);
    } else if cell.column == 8 && cell.row >= size - 7 {
      assert cell == FormatB(size, cell.row - (size - 15));
    }
  }

  lemma FormatIsReserved(version: nat, cell: Cell)
    requires IsVersion(version) && IsFormatCell(Size(version), cell)
    ensures Inside(cell, Size(version)) && IsReserved(version, cell)
  {
  }

  /** Masking twice undoes itself and stays within `n` bits. */
  lemma MaskTwice(plain: nat, key: nat, n: nat)
    requires plain < Pow2(n) && key < Pow2(n)
    ensures Xor(plain, key) < Pow2(n) && Xor(Xor(plain, key), key) == plain
  {
    XorBelow(plain, key, n);
    XorAssociates(plain, key, key);
    XorSelf(key);
  }

  lemma MaskTwiceInFifteen(plain: nat, key: nat, n: nat)
    requires plain < 32768 && key < 32768 && n == 15
    ensures Xor(plain, key) < 32768 && Xor(Xor(plain, key), key) == plain
  {
    FifteenBits(n);
    MaskTwice(plain, key, n);
  }

  lemma FifteenBits(n: nat)
    requires n == 15
    ensures Pow2(n) == 32768
  {
    assert Pow2(15) == 32768;
  }

  lemma HighBits(plain: nat, mask: nat)
    requires plain / 1024 == mask < 8
    ensures plain < 32768 && plain / 1024 % 8 == mask
  {
  }

  lemma PlainBound(mask: nat, plain: nat, n: nat)
    requires mask < 8 && plain == Word(mask, FORMAT_GENERATOR) && n == 10
    ensures plain < 32768 && plain / 1024 % 8 == mask
  {
    FormatWordIs(mask, plain, n);
    HighBits(plain, mask);
  }

  /** The mask can be read off the format word. */
  lemma WordMask(mask: nat)
    requires mask < 8
    ensures FormatWord(mask) < 32768 && Xor(FormatWord(mask), FORMAT_MASK) / 1024 % 8 == mask
  {
    var plain := Word(mask, FORMAT_GENERATOR);
    PlainBound(mask, plain, 10);
    MaskTwiceInFifteen(plain, FORMAT_MASK, 15);
  }

  // ----- writing

  lemma FormatWordReads(mask: nat, plain: nat, bits: nat)
    requires mask < 8 && plain == Word(mask, FORMAT_GENERATOR) && bits == Xor(plain, 0x5412)
    ensures Xor(bits, 0x5412) == plain && plain / 1024 == mask && IsMultiple(plain, 0x537)
  {
    FormatWordIs(mask, plain, 10);
    PlainBound(mask, plain, 10);
    MaskTwiceInFifteen(plain, FORMAT_MASK, 15);
  }

  /** Unmasked, the multiple of the generator with the mask number in its high bits. */
  method FormatBits(mask: nat) returns (bits: nat)
    requires mask < 8
    ensures Xor(bits, 0x5412) / 1024 == mask && IsMultiple(Xor(bits, 0x5412), 0x537)
    ensures bits == FormatWord(mask)
  {
    ghost var n: nat :| n == 10;
    var remainder := mask;
    for index := 0 to 10
      invariant remainder == Divide(mask, FORMAT_GENERATOR, n, index) && remainder < 1024
    {
      FormatRound(remainder, n);
      remainder := 2 * remainder;
      if remainder / 1024 % 2 == 1 {
        remainder := Xor(remainder, 0x537);
      }
    }
    bits := Xor(mask * 1024 + remainder, FORMAT_MASK);
    FormatWordEnds(mask, remainder, n);
    FormatWordReads(mask, mask * 1024 + remainder, bits);
  }

  /** Both copies show the word, the dark module is dark, and nothing else changes. */
  ghost predicate Formatted(before: Grid, after: Grid, size: nat, word: nat)
    requires size >= 21
  {
    && IsGrid(before, size) && IsGrid(after, size)
    && (forall k :: 0 <= k < 15 ==>
      At(after, FormatA(k)) == BitSet(word, k) && At(after, FormatB(size, k)) == BitSet(word, k))
    && At(after, Cell(size - 8, 8))
    && (forall cell :: Inside(cell, size) && !IsFormatCell(size, cell) ==> At(after, cell) == At(before, cell))
  }

  method PlaceFormat(matrix: array2<bool>, size: nat, mask: nat)
    requires IsSquare(matrix, size) && size >= 21 && mask < 8
    modifies matrix
    ensures Formatted(old(Rows(matrix)), Rows(matrix), size, FormatWord(mask))
  {
    var bits := FormatBits(mask);
    PlaceWord(matrix, size, bits);
  }

  lemma CopiesApart(size: nat, k: nat)
    requires k < 15 && size >= 21
    ensures Inside(FormatA(k), size) && Inside(FormatB(size, k), size)
    ensures !InSecondCopy(FormatA(k), size) && FormatA(k) != Cell(size - 8, 8) && FormatB(size, k) != Cell(size - 8, 8)
  {
  }

  predicate InSecondCopy(cell: Cell, size: nat)
    requires size >= 21
  {
    (cell.row == 8 && cell.column >= size - 8) || (cell.column == 8 && cell.row >= size - 7)
  }

  lemma FormattedIs(matrix: array2<bool>, before: Grid, size: nat, word: nat)
    requires IsSquare(matrix, size) && size >= 21 && IsGrid(before, size)
    requires forall k :: 0 <= k < 15 ==> Inside(FormatA(k), size) && Inside(FormatB(size, k), size)
    requires forall k :: 0 <= k < 15 ==> matrix[FormatA(k).row, FormatA(k).column] == BitSet(word, k)
    requires forall k :: 0 <= k < 15 ==> matrix[FormatB(size, k).row, FormatB(size, k).column] == BitSet(word, k)
    requires matrix[size - 8, 8]
    requires forall cell :: Inside(cell, size) && !IsFormatCell(size, cell) ==>
      matrix[cell.row, cell.column] == At(before, cell)
    ensures Formatted(before, Rows(matrix), size, word)
  {
    hide BitSet, IsFormatCell, FormatA, FormatB;
  }

  method PlaceWord(matrix: array2<bool>, size: nat, bits: nat)
    requires IsSquare(matrix, size) && size >= 21
    modifies matrix
    ensures Formatted(old(Rows(matrix)), Rows(matrix), size, bits)
  {
    hide BitSet, IsFormatCell, FormatA, FormatB, Formatted;
    ghost var before := Rows(matrix);
    forall k | 0 <= k < 15
      ensures Inside(FormatA(k), size) && Inside(FormatB(size, k), size)
      ensures !InSecondCopy(FormatA(k), size) && FormatA(k) != Cell(size - 8, 8)
      ensures FormatB(size, k) != Cell(size - 8, 8)
    {
      CopiesApart(size, k);
    }
    PlaceFirstCopy(matrix, size, bits);
    PlaceSecondCopy(matrix, size, bits);
    matrix[size - 8, 8] := true;
    forall cell | Inside(cell, size) && !IsFormatCell(size, cell)
      ensures matrix[cell.row, cell.column] == old(matrix[cell.row, cell.column])
    {
      FormatShape(size, cell);
    }
    FormattedIs(matrix, before, size, bits);
  }

  method PlaceSecondCopy(matrix: array2<bool>, size: nat, bits: nat)
    requires IsSquare(matrix, size) && size >= 21
    modifies matrix
    ensures forall k :: 0 <= k < 15 ==> matrix[FormatB(size, k).row, FormatB(size, k).column] == BitSet(bits, k)
    ensures forall r, c :: 0 <= r < size && 0 <= c < size ==>
      matrix[r, c] == old(matrix[r, c]) || (r == 8 && c >= size - 8) || (c == 8 && r >= size - 7)
  {
    for index := 0 to 8
      invariant forall k :: 0 <= k < index ==> matrix[8, size - 1 - k] == BitSet(bits, k)
      invariant forall r, c :: 0 <= r < size && 0 <= c < size ==>
        matrix[r, c] == old(matrix[r, c]) || (r == 8 && c >= size - 8)
    {
      matrix[8, size - 1 - index] := BitSet(bits, index);
    }
    for index := 8 to 15
      invariant forall k :: 0 <= k < index ==> matrix[FormatB(size, k).row, FormatB(size, k).column] == BitSet(bits, k)
      invariant forall r, c :: 0 <= r < size && 0 <= c < size ==>
        matrix[r, c] == old(matrix[r, c]) || (r == 8 && c >= size - 8) || (c == 8 && r >= size - 7)
    {
      matrix[size - 15 + index, 8] := BitSet(bits, index);
    }
  }

  method PlaceFirstCopy(matrix: array2<bool>, size: nat, bits: nat)
    requires IsSquare(matrix, size) && size >= 21
    modifies matrix
    ensures forall k :: 0 <= k < 15 ==> matrix[FormatA(k).row, FormatA(k).column] == BitSet(bits, k)
    ensures forall r, c :: 0 <= r < size && 0 <= c < size ==>
      matrix[r, c] == old(matrix[r, c]) || (c == 8 && r <= 8 && r != 6) || (r == 8 && c <= 8 && c != 6)
  {
    for index := 0 to 6
      invariant forall k :: 0 <= k < index ==> matrix[k, 8] == BitSet(bits, k)
      invariant forall r, c :: 0 <= r < size && 0 <= c < size ==>
        matrix[r, c] == old(matrix[r, c]) || (c == 8 && r <= 5)
    {
      matrix[index, 8] := BitSet(bits, index);
    }
    matrix[7, 8] := BitSet(bits, 6);
    matrix[8, 8] := BitSet(bits, 7);
    matrix[8, 7] := BitSet(bits, 8);
    label turned:
    for index := 9 to 15
      invariant forall r, c :: 0 <= r < size && 0 <= c < size ==>
        matrix[r, c] == if r == 8 && 14 - index < c <= 5 then BitSet(bits, 14 - c) else old@turned(matrix[r, c])
    {
      matrix[8, 14 - index] := BitSet(bits, index);
    }
  }

  // ----- reading

  /** The fifteen format modules of the first copy, the highest bit first. */
  ghost function FormatSeen(grid: Grid): (seen: seq<bool>)
    requires |grid| >= 21 && IsGrid(grid, |grid|)
    ensures |seen| == 15 && forall i :: 0 <= i < 15 ==> seen[i] == At(grid, FormatA(14 - i))
  {
    seq(15, i requires 0 <= i < 15 => At(grid, FormatA(14 - i)))
  }

  ghost function ReadFormat(grid: Grid): nat
    requires |grid| >= 21 && IsGrid(grid, |grid|)
  {
    Number(FormatSeen(grid))
  }

  ghost function ReadMask(grid: Grid): nat
    requires |grid| >= 21 && IsGrid(grid, |grid|)
  {
    Xor(ReadFormat(grid), FORMAT_MASK) / 1024 % 8
  }

  ghost predicate ShowsWord(grid: Grid, word: nat)
    requires |grid| >= 21 && IsGrid(grid, |grid|)
  {
    forall k :: 0 <= k < 15 ==> At(grid, FormatA(k)) == BitSet(word, k)
  }

  lemma FormatSeenIsWord(grid: Grid, word: nat)
    requires |grid| >= 21 && IsGrid(grid, |grid|) && ShowsWord(grid, word)
    ensures FormatSeen(grid) == Bits(word, 15)
  {
  }

  lemma NumberOf(seen: seq<bool>, word: nat, n: nat)
    requires seen == Bits(word, n) && word < Pow2(n)
    ensures Number(seen) == word
  {
    NumberOfBits(word, n);
  }

  lemma ReadFormatFinds(grid: Grid, mask: nat)
    requires |grid| >= 21 && IsGrid(grid, |grid|) && mask < 8 && ShowsWord(grid, FormatWord(mask))
    ensures ReadFormat(grid) == FormatWord(mask)
  {
    WordMask(mask);
    FifteenBits(15);
    FormatSeenIsWord(grid, FormatWord(mask));
    NumberOf(FormatSeen(grid), FormatWord(mask), 15);
  }

  /** A reader finds the mask that was used. */
  lemma ReadMaskFinds(grid: Grid, mask: nat)
    requires |grid| >= 21 && IsGrid(grid, |grid|) && mask < 8 && ShowsWord(grid, FormatWord(mask))
    ensures ReadMask(grid) == mask
  {
    ReadFormatFinds(grid, mask);
    WordMask(mask);
  }
}
