/** The unreserved modules of a symbol hold every codeword bit of its version. */
module QrCapacity {
  import opened Arithmetic
  import opened QrVersions
  import opened QrLayout
  import opened Sequences

  /** The visited modules that carry data, in order. */
  ghost function Free(version: nat, cells: seq<Cell>): seq<Cell>
    requires IsVersion(version)
  {
    if cells == [] then []
    else
      var last := cells[|cells| - 1];
      Free(version, cells[..|cells| - 1]) + if IsReserved(version, last) then [] else [last]
  }

  /** The data modules of a symbol in zigzag order. */
  ghost function DataPath(version: nat): seq<Cell>
    requires IsVersion(version)
  {
    Free(version, Walk(Size(version), Size(version) - 1, true))
  }

  lemma {:induction false} FreeCells(version: nat, cells: seq<Cell>)
    requires IsVersion(version)
    ensures forall cell :: cell in Free(version, cells) <==> cell in cells && !IsReserved(version, cell)
  {
    if cells != [] {
      var n := |cells| - 1;
      FreeCells(version, cells[..n]);
      assert cells == cells[..n] + [cells[n]];
    }
  }

  lemma {:induction false} FreeDistinct(version: nat, cells: seq<Cell>)
    requires IsVersion(version) && Distinct(cells)
    ensures Distinct(Free(version, cells))
  {
    if cells != [] {
      var n := |cells| - 1;
      FreeDistinct(version, cells[..n]);
      FreeCells(version, cells[..n]);
      forall i | 0 <= i < |Free(version, cells[..n])| ensures Free(version, cells[..n])[i] != cells[n] {
        assert Free(version, cells[..n])[i] in cells[..n];
      }
    }
  }

  /** The modules that carry data. */
  ghost predicate IsFree(version: nat, cell: Cell)
    requires IsVersion(version)
  {
    cell.row < Size(version) && cell.column < Size(version) && !IsReserved(version, cell)
  }

  lemma PathCell(version: nat, walk: seq<Cell>, cell: Cell)
    requires IsVersion(version) && walk == Walk(Size(version), Size(version) - 1, true)
    ensures cell in Free(version, walk) <==> IsFree(version, cell)
  {
    WalkVisits(version, cell);
    FreeCells(version, walk);
    if cell.column == 6 {
      assert IsReserved(version, cell);
    }
  }

  lemma PathCells(version: nat, walk: seq<Cell>, path: seq<Cell>)
    requires IsVersion(version) && walk == Walk(Size(version), Size(version) - 1, true) && path == Free(version, walk)
    ensures forall cell :: cell in path <==> IsFree(version, cell)
  {
    forall cell: Cell ensures cell in path <==> IsFree(version, cell) {
      PathCell(version, walk, cell);
    }
  }

  lemma PathDistinct(version: nat, walk: seq<Cell>, path: seq<Cell>)
    requires IsVersion(version) && walk == Walk(Size(version), Size(version) - 1, true) && path == Free(version, walk)
    ensures Distinct(path)
  {
    WalkCells(Size(version), Size(version) - 1, true);
    FreeDistinct(version, walk);
  }

  /** The data path visits exactly the unreserved modules of the symbol, each once. */
  lemma DataPathIsFree(version: nat)
    requires IsVersion(version)
    ensures Distinct(DataPath(version))
    ensures forall cell :: cell in DataPath(version) <==> IsFree(version, cell)
  {
    var walk, path := Walk(Size(version), Size(version) - 1, true), DataPath(version);
    PathDistinct(version, walk, path);
    PathCells(version, walk, path);
  }

  lemma {:induction false} FreeInOrder(version: nat, size: nat, cells: seq<Cell>)
    requires IsVersion(version) && InOrder(size, cells)
    ensures InOrder(size, Free(version, cells))
  {
    if cells != [] {
      var n := |cells| - 1;
      FreeInOrder(version, size, cells[..n]);
      FreeCells(version, cells[..n]);
      forall i | 0 <= i < |Free(version, cells[..n])| ensures Sooner(size, Free(version, cells[..n])[i], cells[n]) {
        assert Free(version, cells[..n])[i] in cells[..n];
      }
    }
  }

  /** The data path goes up and down the pairs of columns from right to left, in each row the right
    module before the left one. */
  lemma DataPathInOrder(version: nat)
    requires IsVersion(version)
    ensures InOrder(Size(version), DataPath(version))
  {
    hide InOrder, Walk, Free;
    var size := Size(version);
    assert FirstPair(size, size - 1) == 0;
    WalkInOrder(size, size - 1, true);
    FreeInOrder(version, size, Walk(size, size - 1, true));
  }

  // ----- counting

  datatype Rect = Rect(top: nat, left: nat, rows: nat, columns: nat)

  function RowCells(row: nat, left: nat, columns: nat): (s: set<Cell>)
    ensures |s| == columns
    ensures forall cell :: cell in s <==> cell.row == row && left <= cell.column < left + columns
  {
    if columns == 0 then {} else RowCells(row, left, columns - 1) + {Cell(row, left + columns - 1)}
  }

  function Cells(rect: Rect): (s: set<Cell>)
    ensures |s| == Times(rect.rows, rect.columns)
    ensures forall cell :: cell in s <==> InBlock(cell, rect.top, rect.left, rect.rows, rect.columns)
    decreases rect.rows
  {
    if rect.rows == 0 then {}
    else
      var above := Cells(rect.(rows := rect.rows - 1));
      var last := RowCells(rect.top + rect.rows - 1, rect.left, rect.columns);
      assert above !! last;
      above + last
  }

  function Area(rects: seq<Rect>): nat {
    if rects == [] then 0 else Times(rects[0].rows, rects[0].columns) + Area(rects[1..])
  }

  predicate Covered(cell: Cell, rects: seq<Rect>) {
    rects != [] &&
      (InBlock(cell, rects[0].top, rects[0].left, rects[0].rows, rects[0].columns) || Covered(cell, rects[1..]))
  }

  lemma {:induction false} CoverBound(cells: set<Cell>, rects: seq<Rect>)
    requires forall cell :: cell in cells ==> Covered(cell, rects)
    ensures |cells| <= Area(rects)
  {
    if rects != [] {
      var here := Cells(rects[0]);
      CoverBound(cells - here, rects[1..]);
      assert cells <= (cells - here) + here;
      SizeOfUnion(cells, cells - here, here);
    } else {
      assert cells == {};
    }
  }

  lemma SizeOfUnion<T>(s: set<T>, a: set<T>, b: set<T>)
    requires s <= a + b
    ensures |s| <= |a| + |b|
  {
    assert |a + b| == |a| + |b - a|;
    assert b == (b - a) + (a * b);
    assert a + b == s + ((a + b) - s);
  }

  lemma {:induction false} DistinctSize<T>(s: seq<T>)
    requires Distinct(s)
    ensures |set x | x in s| == |s|
  {
    if s != [] {
      var n := |s| - 1;
      DistinctSize(s[..n]);
      assert s == s[..n] + [s[n]];
      assert (set x | x in s) == (set x | x in s[..n]) + {s[n]};
      assert s[n] !in s[..n];
    }
  }

  /** Rectangles that together cover the reserved modules. */
  function ReservedRects(version: nat): seq<Rect>
    requires IsVersion(version)
  {
    var n := Size(version);
    var a := Spec(version).alignment;
    [Rect(0, 0, 9, 9), Rect(0, n - 8, 9, 8), Rect(n - 8, 0, 8, 9), Rect(6, 9, 1, n - 17), Rect(9, 6, n - 17, 1)]
    + (if version == 1 then []
       else if version < 7 then [Rect(a[1] - 2, a[1] - 2, 5, 5)]
       else [Rect(4, a[1] - 2, 2, 5), Rect(7, a[1] - 2, 2, 5), Rect(a[1] - 2, 4, 5, 2), Rect(a[1] - 2, 7, 5, 2),
             Rect(a[1] - 2, a[1] - 2, 5, 5), Rect(a[1] - 2, a[2] - 2, 5, 5),
             Rect(a[2] - 2, a[1] - 2, 5, 5), Rect(a[2] - 2, a[2] - 2, 5, 5),
             Rect(0, n - 11, 6, 3), Rect(n - 11, 0, 3, 6)])
  }

  lemma AreaSplits(a: Rect, rest: seq<Rect>)
    ensures Area([a] + rest) == a.rows * a.columns + Area(rest)
  {
    assert ([a] + rest)[1..] == rest;
    TimesIsProduct(a.rows, a.columns);
  }

  lemma FiveAreas(a: Rect, b: Rect, c: Rect, d: Rect, e: Rect, rest: seq<Rect>)
    ensures Area([a, b, c, d, e] + rest)
         == a.rows * a.columns + b.rows * b.columns + c.rows * c.columns
          + d.rows * d.columns + e.rows * e.columns + Area(rest)
  {
    AreaSplits(e, rest);
    AreaSplits(d, [e] + rest);
    AreaSplits(c, [d] + ([e] + rest));
    AreaSplits(b, [c] + ([d] + ([e] + rest)));
    AreaSplits(a, [b] + ([c] + ([d] + ([e] + rest))));
    assert [a, b, c, d, e] + rest == [a] + ([b] + ([c] + ([d] + ([e] + rest))));
  }

  /** How many modules the rectangles have. */
  lemma ReservedArea(version: nat)
    requires IsVersion(version)
    ensures Area(ReservedRects(version))
         == 225 + 2 * (Size(version) - 17) + if version == 1 then 0 else if version < 7 then 25 else 176
  {
    var n, a, none: seq<Rect> := Size(version), Spec(version).alignment, [];
    var rest := ReservedRects(version)[5..];
    FiveAreas(Rect(0, 0, 9, 9), Rect(0, n - 8, 9, 8), Rect(n - 8, 0, 8, 9), Rect(6, 9, 1, n - 17),
              Rect(9, 6, n - 17, 1), rest);
    if version == 1 {
      assert rest == none;
    } else if version < 7 {
      AreaSplits(Rect(a[1] - 2, a[1] - 2, 5, 5), none);
      assert rest == [Rect(a[1] - 2, a[1] - 2, 5, 5)] + none;
    } else {
      FiveAreas(rest[5], rest[6], rest[7], rest[8], rest[9], none);
      FiveAreas(rest[0], rest[1], rest[2], rest[3], rest[4], rest[5..]);
      assert rest == [rest[0], rest[1], rest[2], rest[3], rest[4]] + rest[5..];
      assert rest[5..] == [rest[5], rest[6], rest[7], rest[8], rest[9]] + none;
    }
  }

  lemma {:induction false} CoveredBy(cell: Cell, rects: seq<Rect>, i: nat)
    requires i < |rects| && InBlock(cell, rects[i].top, rects[i].left, rects[i].rows, rects[i].columns)
    ensures Covered(cell, rects)
    decreases i
  {
    if i > 0 { CoveredBy(cell, rects[1..], i - 1); }
  }

  lemma FrameCovered(version: nat, cell: Cell)
    requires IsVersion(version) && cell.row < Size(version) && cell.column < Size(version)
    requires InFrame(cell, Size(version))
    ensures Covered(cell, ReservedRects(version))
  {
    var n, rects := Size(version), ReservedRects(version);
    if InBlock(cell, 0, 0, 9, 9) {
      CoveredBy(cell, rects, 0);
    } else if InBlock(cell, 0, n - 8, 9, 8) {
      CoveredBy(cell, rects, 1);
    } else if InBlock(cell, n - 8, 0, 8, 9) {
      CoveredBy(cell, rects, 2);
    } else if cell.row == 6 {
      CoveredBy(cell, rects, 3);
    } else {
      CoveredBy(cell, rects, 4);
    }
  }

  /** The rectangle that an alignment pattern, or its part beyond a timing line, makes up. */
  function AlignmentRect(version: nat, cell: Cell, i: nat, j: nat): nat {
    if version < 7 then 5
    else if i == 0 then (if cell.row < 6 then 5 else 6)
    else if j == 0 then (if cell.column < 6 then 7 else 8)
    else 7 + 2 * i + (j - 1)
  }

  lemma InAlignmentRect(version: nat, cell: Cell, i: nat, j: nat)
    requires IsVersion(version) && cell.row < Size(version) && cell.column < Size(version)
    requires i < |Spec(version).alignment| && j < |Spec(version).alignment| && InAlignment(version, cell, i, j)
    requires !InFrame(cell, Size(version))
    ensures var rects, k := ReservedRects(version), AlignmentRect(version, cell, i, j);
      k < |rects| && InBlock(cell, rects[k].top, rects[k].left, rects[k].rows, rects[k].columns)
  {
    hide Covered;
  }

  lemma AlignmentCovered(version: nat, cell: Cell, i: nat, j: nat)
    requires IsVersion(version) && cell.row < Size(version) && cell.column < Size(version)
    requires i < |Spec(version).alignment| && j < |Spec(version).alignment| && InAlignment(version, cell, i, j)
    requires !InFrame(cell, Size(version))
    ensures Covered(cell, ReservedRects(version))
  {
    hide ReservedRects, AlignmentRect, Covered;
    InAlignmentRect(version, cell, i, j);
    CoveredBy(cell, ReservedRects(version), AlignmentRect(version, cell, i, j));
  }

  lemma ReservedCovered(version: nat, cell: Cell)
    requires IsVersion(version) && cell.row < Size(version) && cell.column < Size(version)
    requires IsReserved(version, cell)
    ensures Covered(cell, ReservedRects(version))
  {
    if InFrame(cell, Size(version)) {
      FrameCovered(version, cell);
    } else if InVersionInfo(version, cell) {
      CoveredBy(cell, ReservedRects(version), if cell.row < 6 then 13 else 14);
    } else {
      var i, j :| 0 <= i < |Spec(version).alignment| && 0 <= j < |Spec(version).alignment|
        && InAlignment(version, cell, i, j);
      AlignmentCovered(version, cell, i, j);
    }
  }

  /** Data and error correction codewords together. */
  function TotalCodewords(version: nat): nat
    requires IsVersion(version)
  {
    DataCodewords(version) + BlockCount(version) * Spec(version).ecPerBlock
  }

  lemma TotalCodewordsTable(version: nat)
    requires IsVersion(version)
    ensures TotalCodewords(version) == [26, 44, 70, 100, 134, 172, 196, 242, 292, 346][version - 1]
  {
    DataCapacities(version);
  }

  lemma FreeModules(version: nat, n: nat)
    requires IsVersion(version) && n == Size(version)
    ensures n * n <= |DataPath(version)| + Area(ReservedRects(version))
  {
    var rects, path := ReservedRects(version), DataPath(version);
    var all := Cells(Rect(0, 0, n, n));
    var free := set cell | cell in path;
    DataPathIsFree(version);
    DistinctSize(path);
    forall cell | cell in all - free ensures Covered(cell, rects) {
      ReservedCovered(version, cell);
    }
    CoverBound(all - free, rects);
    SizeOfUnion(all, all - free, free);
    TimesIsProduct(n, n);
  }

  lemma RoomFor(version: nat, n: nat, area: nat, total: nat)
    requires IsVersion(version) && n == Size(version)
    requires area == 225 + 2 * (n - 17) + if version == 1 then 0 else if version < 7 then 25 else 176
    requires total == [26, 44, 70, 100, 134, 172, 196, 242, 292, 346][version - 1]
    ensures 8 * total + area <= n * n
  {
  }

  /** Every codeword bit of the version has a data module of its own. */
  lemma CapacitySuffices(version: nat)
    requires IsVersion(version)
    ensures 8 * TotalCodewords(version) <= |DataPath(version)|
  {
    var n := Size(version);
    FreeModules(version, n);
    ReservedArea(version);
    TotalCodewordsTable(version);
    RoomFor(version, n, Area(ReservedRects(version)), TotalCodewords(version));
  }
}
