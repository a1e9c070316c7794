/** The whole encoder and the reader that undoes it, from apps/web/src/lib/qr.ts. */
module QrEncoder {
  import opened Bytes
  import opened Gf256
  import opened BitStrings
  import opened GaloisTables
  import opened Outcomes
  import opened QrVersions
  import opened QrFraming
  import opened QrBlocks
  import opened QrLayout
  import opened QrCapacity
  import opened QrReserved
  import opened QrPatterns
  import opened QrPlacement
  import opened QrFormat
  import opened QrWords
  import opened Bch
  import opened QrPenalty
  import EC = ErrorCorrection
  import RS = ReedSolomon

  datatype Encoded = Symbol(size: nat, modules: Grid, version: nat) | CapacityError(length: nat)

  /** The codewords of one symbol before and after interleaving. */
  datatype Message = Message(words: Block, blocks: seq<Block>, ecBlocks: seq<Block>,
                             longest: nat, stream: Block)

  ghost predicate Carries(version: nat, data: seq<Byte>, m: Message)
    requires IsVersion(version)
  {
    && IsFramed(version, data, m.words)
    && Splits(version, m.words, m.blocks)
    && Corrects(m.blocks, m.ecBlocks, Spec(version).ecPerBlock)
    && IsInterleaved(m.blocks, m.ecBlocks, Spec(version).ecPerBlock, m.longest, m.stream)
  }

  /** A reserved module that is not one of the two copies of the format word. */
  ghost predicate IsPatternCell(version: nat, cell: Cell)
    requires IsVersion(version)
  {
    && Inside(cell, Size(version)) && IsReserved(version, cell)
    && (cell == Cell(Size(version) - 8, 8) || !IsFormatCell(Size(version), cell))
  }

  /** Every data module shows its masked codeword bit, the format modules name the mask, and every
    other module is as the function patterns have it. */
  ghost predicate IsCandidate(version: nat, stream: seq<Byte>, mask: nat, grid: Grid)
    requires IsVersion(version) && mask < 8
  {
    var size, path := Size(version), DataPath(version);
    && IsGrid(grid, size)
    && (forall k :: 0 <= k < |path| ==> Inside(path[k], size) && At(grid, path[k]) == Shown(stream, mask, k, path[k]))
    && ShowsWord(grid, FormatWord(mask))
    && (forall k :: 0 <= k < 15 ==> At(grid, FormatB(size, k)) == BitSet(FormatWord(mask), k))
    && (forall cell :: IsPatternCell(version, cell) ==> At(grid, cell) == PatternAt(version, cell))
  }

  // ----- the reader

  ghost predicate IsSymbol(grid: Grid, version: nat) {
    IsVersion(version) && IsGrid(grid, Size(version))
  }

  ghost predicate AllInside(path: seq<Cell>, size: nat) {
    forall k :: 0 <= k < |path| ==> Inside(path[k], size)
  }

  /** The first `8 * n` modules along the path, unmasked and read as bytes. */
  ghost function WordsAlong(grid: Grid, path: seq<Cell>, mask: nat, n: nat): (words: seq<Byte>)
    requires IsGrid(grid, |grid|) && AllInside(path, |grid|) && 8 * n <= |path|
    ensures |words| == n
  {
    BitsToBytes(BitsAlong(grid, path, mask, 8 * n))
  }

  ghost function BitsAlong(grid: Grid, path: seq<Cell>, mask: nat, n: nat): (bits: seq<bool>)
    requires IsGrid(grid, |grid|) && AllInside(path, |grid|) && n <= |path|
    ensures |bits| == n
    ensures forall k :: 0 <= k < n ==> bits[k] == (At(grid, path[k]) != MaskAt(mask, path[k].row, path[k].column))
  {
    seq(n, k requires 0 <= k < n => At(grid, path[k]) != MaskAt(mask, path[k].row, path[k].column))
  }

  lemma PathInside(version: nat)
    requires IsVersion(version)
    ensures AllInside(DataPath(version), Size(version)) && 8 * TotalCodewords(version) <= |DataPath(version)|
  {
    CapacitySuffices(version);
    DataPathIsFree(version);
    forall k | 0 <= k < |DataPath(version)| ensures Inside(DataPath(version)[k], Size(version)) {
      assert DataPath(version)[k] in DataPath(version);
    }
  }

  /** As many codewords as the version has, in zigzag order, unmasked. */
  ghost function WordsUnder(grid: Grid, version: nat, mask: nat): (words: seq<Byte>)
    requires IsSymbol(grid, version)
    ensures |words| == TotalCodewords(version)
  {
    PathInside(version);
    WordsAlong(grid, DataPath(version), mask, TotalCodewords(version))
  }

  ghost function ReadWords(grid: Grid, version: nat): (words: seq<Byte>)
    requires IsSymbol(grid, version)
    ensures |words| == TotalCodewords(version)
  {
    WordsUnder(grid, version, ReadMask(grid))
  }

  ghost function DataBlocks(version: nat, words: seq<Byte>): seq<Block>
    requires IsVersion(version)
  {
    Deinterleave(BlockLengths(Spec(version).groups), words)
  }

  lemma DataComesFirst(version: nat)
    requires IsVersion(version)
    ensures DataCodewords(version) <= TotalCodewords(version)
  {
    DataCapacities(version);
    TotalCodewordsTable(version);
  }

  /** The error correction words of each block. */
  ghost function Corrections(version: nat, words: seq<Byte>): seq<Block>
    requires IsVersion(version) && |words| == TotalCodewords(version)
  {
    DataComesFirst(version);
    Deinterleave(Repeat(Spec(version).ecPerBlock, BlockCount(version)), words[DataCodewords(version)..])
  }

  /** Each block with its error correction. */
  ghost function WholeBlocks(version: nat, words: seq<Byte>): (blocks: seq<Block>)
    requires IsVersion(version) && |words| == TotalCodewords(version)
    ensures |blocks| == BlockCount(version) == |DataBlocks(version, words)| == |Corrections(version, words)|
    ensures forall j :: 0 <= j < |blocks| ==>
      blocks[j] == DataBlocks(version, words)[j] + Corrections(version, words)[j]
  {
    BlockLengthCount(version);
    seq(BlockCount(version), j requires 0 <= j < BlockCount(version) =>
      DataBlocks(version, words)[j] + Corrections(version, words)[j])
  }

  /** Mask from the format modules, zigzag walk, deinterleaving, header. */
  ghost function ReadSymbol(grid: Grid, version: nat): Option<seq<Byte>>
    requires IsSymbol(grid, version)
  {
    Parse(version, BytesToBits(Flatten(DataBlocks(version, ReadWords(grid, version)))))
  }

  /** The number of modules tells the version. */
  ghost function Read(grid: Grid): Option<seq<Byte>> {
    if |grid| >= 17 && IsSymbol(grid, (|grid| - 17) / 4) then ReadSymbol(grid, (|grid| - 17) / 4) else None
  }

  // ----- the lengths of the message

  lemma {:induction false} TotalOfLengths(blocks: seq<Block>)
    ensures |Flatten(blocks)| == Total(Lengths(blocks))
  {
    if blocks != [] {
      TotalOfLengths(blocks[..|blocks| - 1]);
      assert Lengths(blocks)[..|blocks| - 1] == Lengths(blocks[..|blocks| - 1]);
    }
  }

  lemma {:induction false} TotalOfRepeat(size: nat, count: nat)
    ensures Total(Repeat(size, count)) == count * size
  {
    if count > 0 {
      TotalOfRepeat(size, count - 1);
      assert Repeat(size, count)[..count - 1] == Repeat(size, count - 1);
    }
  }

  lemma BlockLengthCount(version: nat)
    requires IsVersion(version)
    ensures |BlockLengths(Spec(version).groups)| == BlockCount(version)
  {
    var g := Spec(version).groups;
    OneGroup(g[0]);
    if |g| == 1 {
      assert g == [g[0]];
    } else {
      assert g[..1] == [g[0]];
    }
  }

  lemma CorrectionLengths(version: nat, m: Message, data: seq<Byte>)
    requires IsVersion(version) && Carries(version, data, m)
    ensures Lengths(m.ecBlocks) == Repeat(Spec(version).ecPerBlock, BlockCount(version))
  {
    BlockLengthCount(version);
    assert |m.blocks| == |Lengths(m.blocks)|;
    forall j | 0 <= j < |m.ecBlocks| ensures |m.ecBlocks[j]| == Spec(version).ecPerBlock {
      assert IsCorrection(m.blocks[j], m.ecBlocks[j], Spec(version).ecPerBlock);
    }
  }

  /** The stream holds every word of every block: data words first, then error correction. */
  lemma StreamParts(version: nat, data: seq<Byte>, m: Message)
    requires IsVersion(version) && Carries(version, data, m)
    ensures |Columns(m.blocks, m.longest)| == DataCodewords(version)
    ensures |m.stream| == TotalCodewords(version)
    ensures DataBlocks(version, m.stream) == m.blocks && Corrections(version, m.stream) == m.ecBlocks
  {
    var ec := Spec(version).ecPerBlock;
    CorrectionLengths(version, m, data);
    ColumnsLength(m.blocks, m.longest);
    WordsBeforeTotal(Lengths(m.blocks), m.longest);
    TotalOfLengths(m.blocks);
    ColumnsLength(m.ecBlocks, ec);
    WordsBeforeTotal(Lengths(m.ecBlocks), ec);
    TotalOfRepeat(ec, BlockCount(version));
    DeinterleaveUndoes(m.blocks, m.longest, Columns(m.ecBlocks, ec));
    DeinterleaveUndoes(m.ecBlocks, ec, []);
    assert m.stream[DataCodewords(version)..] == Columns(m.ecBlocks, ec) + [];
  }

  // ----- reading undoes encoding

  lemma WordsAlongPath(grid: Grid, path: seq<Cell>, mask: nat, stream: seq<Byte>)
    requires IsGrid(grid, |grid|) && AllInside(path, |grid|) && 8 * |stream| <= |path|
    requires forall k :: 0 <= k < |path| ==> At(grid, path[k]) == Shown(stream, mask, k, path[k])
    ensures WordsAlong(grid, path, mask, |stream|) == stream
  {
    var bits := BitsAlong(grid, path, mask, 8 * |stream|);
    forall k | 0 <= k < 8 * |stream| ensures bits[k] == BytesToBits(stream)[k] {
      CodewordBitIsStreamBit(stream, k);
    }
    assert bits == BytesToBits(stream);
    BytesRoundTrip(stream);
  }

  /** Whatever the mask, the reader recovers the codeword stream. */
  lemma CandidateWords(version: nat, stream: seq<Byte>, mask: nat, grid: Grid)
    requires IsVersion(version) && mask < 8 && IsCandidate(version, stream, mask, grid)
    requires |stream| == TotalCodewords(version)
    ensures ReadWords(grid, version) == WordsUnder(grid, version, mask) == stream
  {
    PathInside(version);
    ReadMaskFinds(grid, mask);
    WordsAlongPath(grid, DataPath(version), mask, stream);
  }

  lemma SizeTellsVersion(version: nat, size: nat)
    requires size == Size(version)
    ensures size >= 17 && (size - 17) / 4 == version
  {
  }

  /** Every candidate, whichever mask it uses, reads back to the data. */
  lemma CandidateReads(version: nat, data: seq<Byte>, m: Message, mask: nat, grid: Grid)
    requires IsVersion(version) && Fits(version, |data|) && Carries(version, data, m)
    requires mask < 8 && IsCandidate(version, m.stream, mask, grid)
    ensures Read(grid) == Some(data)
  {
    hide IsInterleaved, Corrects, Parse, Deinterleave;
    StreamParts(version, data, m);
    CandidateWords(version, m.stream, mask, grid);
    ParseUndoesFraming(version, data, m.words);
    SizeTellsVersion(version, |grid|);
    assert ReadSymbol(grid, version) == Some(data);
  }

  /** A reader that checks the blocks finds every syndrome zero. */
  lemma CandidateHasNoErrors(version: nat, data: seq<Byte>, m: Message, mask: nat, grid: Grid, j: nat, i: nat)
    requires IsVersion(version) && Carries(version, data, m)
    requires mask < 8 && IsCandidate(version, m.stream, mask, grid)
    requires j < BlockCount(version) && i < Spec(version).ecPerBlock
    ensures RS.Value(WholeBlocks(version, ReadWords(grid, version))[j], Power(i)) == 0
  {
    StreamParts(version, data, m);
    CandidateWords(version, m.stream, mask, grid);
    BlockLengthCount(version);
    assert IsCorrection(m.blocks[j], m.ecBlocks[j], Spec(version).ecPerBlock);
    RS.SyndromesVanish(m.blocks[j], Spec(version).ecPerBlock, m.ecBlocks[j], i);
  }

  // ----- damaged symbols

  /** Word for word, each block as read differs from the message in at most half as many words as it
    has error correction words. */
  ghost predicate IsRepairable(version: nat, m: Message, received: seq<Block>)
    requires IsVersion(version)
  {
    && |received| == |m.blocks| == |m.ecBlocks|
    && forall j :: 0 <= j < |received| ==> IsClose(m.blocks[j] + m.ecBlocks[j], received[j], Spec(version).ecPerBlock)
  }

  ghost predicate IsClose(sent: Block, received: Block, n: nat) {
    |sent| == |received| && 2 * EC.Distance(sent, received) <= n
  }

  lemma BlocksAreShort(version: nat, j: nat)
    requires IsVersion(version) && j < |BlockLengths(Spec(version).groups)|
    ensures BlockLengths(Spec(version).groups)[j] <= 44 && Spec(version).ecPerBlock <= 26
  {
    var g := Spec(version).groups;
    OneGroup(g[0]);
    if |g| == 1 {
      assert g == [g[0]];
    } else {
      assert g[..1] == [g[0]];
    }
  }

  lemma SameBlock(a: Block, aRest: Block, b: Block, bRest: Block, received: Block, n: nat)
    requires IsCorrection(a, aRest, n) && IsCorrection(b, bRest, n) && |a| == |b| && |a| + n <= 255
    requires IsClose(a + aRest, received, n) && IsClose(b + bRest, received, n)
    ensures a == b
  {
    EC.EncodedIsCodeword(a, aRest, n);
    EC.EncodedIsCodeword(b, bRest, n);
    EC.RepairIsUnique(received, a + aRest, b + bRest, n);
    EC.SameParts(a, aRest, b, bRest);
  }

  lemma SameBlocks(version: nat, data: seq<Byte>, m: Message, other: seq<Byte>, k: Message, received: seq<Block>,
                   j: nat)
    requires IsVersion(version) && Carries(version, data, m) && Carries(version, other, k)
    requires IsRepairable(version, m, received) && IsRepairable(version, k, received) && j < |received|
    ensures |m.blocks| == |k.blocks| == |received| && m.blocks[j] == k.blocks[j]
  {
    var n := Spec(version).ecPerBlock;
    assert Lengths(m.blocks)[j] == Lengths(k.blocks)[j];
    BlocksAreShort(version, j);
    assert IsCorrection(m.blocks[j], m.ecBlocks[j], n) && IsCorrection(k.blocks[j], k.ecBlocks[j], n);
    SameBlock(m.blocks[j], m.ecBlocks[j], k.blocks[j], k.ecBlocks[j], received[j], n);
  }

  lemma RepairableDetermines(version: nat, data: seq<Byte>, m: Message, other: seq<Byte>, k: Message,
                             received: seq<Block>)
    requires IsVersion(version) && Fits(version, |data|) && Fits(version, |other|)
    requires Carries(version, data, m) && Carries(version, other, k)
    requires IsRepairable(version, m, received) && IsRepairable(version, k, received)
    ensures data == other
  {
    forall j | 0 <= j < |received| ensures m.blocks[j] == k.blocks[j] {
      SameBlocks(version, data, m, other, k, received, j);
    }
    assert m.blocks == k.blocks;
    ParseUndoesFraming(version, data, m.words);
    ParseUndoesFraming(version, other, k.words);
  }

  /** The symbol may be damaged: at most three of the format modules of the first copy are wrong, and
    unmasked along the walk every block has at most half as many wrong words as it has error
    correction words. */
  ghost predicate Survives(version: nat, m: Message, mask: nat, grid: Grid)
    requires IsSymbol(grid, version)
  {
    && mask < 8 && Differences(ReadFormat(grid), FormatWord(mask)) <= 3
    && IsRepairable(version, m, WholeBlocks(version, WordsUnder(grid, version, mask)))
  }

  /** Such a symbol still determines the mask and the data. */
  lemma DamagedSymbolDeterminesData(version: nat, grid: Grid, data: seq<Byte>, m: Message, mask: nat,
                                    other: seq<Byte>, k: Message, otherMask: nat)
    requires IsSymbol(grid, version) && Fits(version, |data|) && Fits(version, |other|)
    requires Carries(version, data, m) && Carries(version, other, k)
    requires Survives(version, m, mask, grid) && Survives(version, k, otherMask, grid)
    ensures mask == otherMask && data == other
  {
    FormatCorrectsThree(ReadFormat(grid), mask, otherMask);
    RepairableDetermines(version, data, m, other, k, WholeBlocks(version, WordsUnder(grid, version, mask)));
  }

  lemma NoDamage(sent: Block, n: nat)
    ensures IsClose(sent, sent, n)
  {
    EC.DistanceOfSame(sent);
  }

  /** The symbols the encoder makes are such symbols. */
  lemma CandidateSurvives(version: nat, data: seq<Byte>, m: Message, mask: nat, grid: Grid)
    requires IsVersion(version) && Carries(version, data, m)
    requires mask < 8 && IsCandidate(version, m.stream, mask, grid)
    ensures Survives(version, m, mask, grid)
  {
    StreamParts(version, data, m);
    CandidateWords(version, m.stream, mask, grid);
    ReadFormatFinds(grid, mask);
    XorSelf(FormatWord(mask));
    var blocks := WholeBlocks(version, m.stream);
    forall j | 0 <= j < |blocks| ensures IsClose(m.blocks[j] + m.ecBlocks[j], blocks[j], Spec(version).ecPerBlock) {
      NoDamage(blocks[j], Spec(version).ecPerBlock);
    }
  }

  /** Stream and mask determine every module. */
  lemma CandidateIsUnique(version: nat, stream: seq<Byte>, mask: nat, a: Grid, b: Grid)
    requires IsVersion(version) && mask < 8 && IsCandidate(version, stream, mask, a)
    requires IsCandidate(version, stream, mask, b)
    ensures a == b
  {
    var size, path := Size(version), DataPath(version);
    DataPathIsFree(version);
    forall r, c | 0 <= r < size && 0 <= c < size ensures a[r][c] == b[r][c] {
      var cell := Cell(r, c);
      SameModule(version, stream, mask, a, b, cell);
      assert At(a, cell) == a[r][c] && At(b, cell) == b[r][c];
    }
    forall r | 0 <= r < size ensures a[r] == b[r] {
    }
  }

  lemma SameModule(version: nat, stream: seq<Byte>, mask: nat, a: Grid, b: Grid, cell: Cell)
    requires IsVersion(version) && mask < 8 && IsCandidate(version, stream, mask, a)
    requires IsCandidate(version, stream, mask, b)
    requires Inside(cell, Size(version))
    ensures At(a, cell) == At(b, cell)
  {
    var size, path := Size(version), DataPath(version);
    if !IsReserved(version, cell) {
      DataPathIsFree(version);
      assert cell in path;
      var k :| 0 <= k < |path| && path[k] == cell;
      assert At(a, path[k]) == Shown(stream, mask, k, path[k]);
    } else if cell != Cell(size - 8, 8) && IsFormatCell(size, cell) {
      var k :| 0 <= k < 15 && (cell == FormatA(k) || cell == FormatB(size, k));
    }
  }

  // ----- the encoder

  ghost function BaseGrid(version: nat): (grid: Grid)
    requires IsVersion(version)
    ensures IsGrid(grid, Size(version))
    ensures forall cell :: Inside(cell, Size(version)) ==> At(grid, cell) == PatternAt(version, cell)
  {
    seq(Size(version), r requires 0 <= r < Size(version) =>
      seq(Size(version), c requires 0 <= c < Size(version) => PatternAt(version, Cell(r, c))))
  }

  lemma DataStays(version: nat, stream: seq<Byte>, mask: nat, before: Grid, placed: Grid, grid: Grid, word: nat, k: nat)
    requires IsVersion(version) && k < |DataPath(version)|
    requires Placed(before, placed, Size(version), stream, mask, DataPath(version))
    requires Formatted(placed, grid, Size(version), word)
    ensures var cell := DataPath(version)[k];
      Inside(cell, Size(version)) && At(grid, cell) == Shown(stream, mask, k, cell)
  {
    var cell := DataPath(version)[k];
    DataPathIsFree(version);
    assert cell in DataPath(version);
    if IsFormatCell(Size(version), cell) {
      FormatIsReserved(version, cell);
    }
  }

  lemma PatternStays(version: nat, stream: seq<Byte>, mask: nat, placed: Grid, grid: Grid, word: nat, cell: Cell)
    requires IsVersion(version) && Inside(cell, Size(version)) && IsReserved(version, cell)
    requires cell == Cell(Size(version) - 8, 8) || !IsFormatCell(Size(version), cell)
    requires Placed(BaseGrid(version), placed, Size(version), stream, mask, DataPath(version))
    requires Formatted(placed, grid, Size(version), word)
    ensures At(grid, cell) == PatternAt(version, cell)
  {
    DataPathIsFree(version);
    if cell == Cell(Size(version) - 8, 8) {
      assert PatternAt(version, cell);
    } else {
      assert At(grid, cell) == At(placed, cell) == At(BaseGrid(version), cell);
    }
  }

  lemma IsCandidateWhen(version: nat, stream: seq<Byte>, mask: nat, placed: Grid, grid: Grid, word: nat)
    requires IsVersion(version) && mask < 8 && word == FormatWord(mask)
    requires Placed(BaseGrid(version), placed, Size(version), stream, mask, DataPath(version))
    requires Formatted(placed, grid, Size(version), word)
    ensures IsCandidate(version, stream, mask, grid)
  {
    var size, path := Size(version), DataPath(version);
    forall k | 0 <= k < |path| ensures Inside(path[k], size) && At(grid, path[k]) == Shown(stream, mask, k, path[k]) {
      DataStays(version, stream, mask, BaseGrid(version), placed, grid, word, k);
    }
    forall cell | IsPatternCell(version, cell)
      ensures At(grid, cell) == PatternAt(version, cell)
    {
      PatternStays(version, stream, mask, placed, grid, word, cell);
    }
  }

  method CopyMatrix(base: array2<bool>) returns (matrix: array2<bool>)
    ensures fresh(matrix) && Rows(matrix) == Rows(base)
    ensures matrix.Length0 == base.Length0 && matrix.Length1 == base.Length1
  {
    matrix := new bool[base.Length0, base.Length1](
      (r, c) requires 0 <= r < base.Length0 && 0 <= c < base.Length1 reads base => base[r, c]);
    assert forall r :: 0 <= r < base.Length0 ==> RowOf(matrix, r) == RowOf(base, r);
  }

  method Candidate(version: nat, base: array2<bool>, reserved: array2<bool>, stream: seq<Byte>, mask: nat)
    returns (grid: Grid)
    requires IsVersion(version) && IsSquare(base, Size(version)) && MarksReserved(version, reserved)
    requires Rows(base) == BaseGrid(version) && mask < 8
    ensures IsCandidate(version, stream, mask, grid)
  {
    var matrix := CopyMatrix(base);
    PlaceData(version, matrix, reserved, stream, mask);
    ghost var placed := Rows(matrix);
    PlaceFormat(matrix, Size(version), mask);
    grid := Rows(matrix);
    IsCandidateWhen(version, stream, mask, placed, grid, FormatWord(mask));
  }

  /** Entry `best` is the least, and every earlier one is greater. */
  ghost predicate IsFirstLeast(penalties: seq<int>, best: nat) {
    && best < |penalties|
    && (forall k :: 0 <= k < |penalties| ==> penalties[best] <= penalties[k])
    && (forall k :: 0 <= k < best ==> penalties[best] < penalties[k])
  }

  /** The candidate for a mask, with its penalty. */
  ghost predicate IsScored(version: nat, stream: seq<Byte>, mask: nat, grid: Grid, penalty: int)
    requires IsVersion(version) && mask < 8
  {
    IsCandidate(version, stream, mask, grid) && penalty == Penalty(grid)
  }

  /** One candidate for every mask below the length, and its penalty. */
  ghost predicate AreScored(version: nat, stream: seq<Byte>, grids: seq<Grid>, penalties: seq<int>)
    requires IsVersion(version)
  {
    && |grids| == |penalties| <= 8
    && forall k :: 0 <= k < |grids| ==> IsScored(version, stream, k, grids[k], penalties[k])
  }

  lemma ScoredGrows(version: nat, stream: seq<Byte>, grids: seq<Grid>, penalties: seq<int>, grid: Grid, penalty: int)
    requires IsVersion(version) && AreScored(version, stream, grids, penalties) && |grids| < 8
    requires IsScored(version, stream, |grids|, grid, penalty)
    ensures AreScored(version, stream, grids + [grid], penalties + [penalty])
  {
    var all, scores := grids + [grid], penalties + [penalty];
    forall k | 0 <= k < |all| ensures IsScored(version, stream, k, all[k], scores[k]) {
      assert k < |grids| ==> IsScored(version, stream, k, grids[k], penalties[k]);
    }
  }

  lemma LeastGrows(penalties: seq<int>, winner: nat, penalty: int)
    requires IsFirstLeast(penalties, winner)
    ensures IsFirstLeast(penalties + [penalty], if penalty < penalties[winner] then |penalties| else winner)
  {
  }

  /** The best of the masks seen so far. */
  ghost predicate IsChosen(version: nat, stream: seq<Byte>, grids: seq<Grid>, penalties: seq<int>, winner: nat,
                           best: Grid, least: int)
    requires IsVersion(version)
  {
    && AreScored(version, stream, grids, penalties)
    && IsFirstLeast(penalties, winner) && best == grids[winner] && least == penalties[winner]
  }

  lemma ChoiceStarts(version: nat, stream: seq<Byte>, grid: Grid, penalty: int)
    requires IsVersion(version) && IsScored(version, stream, 0, grid, penalty)
    ensures IsChosen(version, stream, [grid], [penalty], 0, grid, penalty)
  {
    hide FormatWord, Blocks;
  }

  lemma ChoiceGrows(version: nat, stream: seq<Byte>, grids: seq<Grid>, penalties: seq<int>, winner: nat,
                    best: Grid, least: int, grid: Grid, penalty: int)
    requires IsVersion(version) && |grids| < 8 && IsChosen(version, stream, grids, penalties, winner, best, least)
    requires IsScored(version, stream, |grids|, grid, penalty)
    ensures IsChosen(version, stream, grids + [grid], penalties + [penalty],
                     if penalty < least then |grids| else winner,
                     if penalty < least then grid else best, if penalty < least then penalty else least)
  {
    ScoredGrows(version, stream, grids, penalties, grid, penalty);
    LeastGrows(penalties, winner, penalty);
  }

  /** The least penalty, the lowest mask on ties. */
  method ChooseMask(version: nat, base: array2<bool>, reserved: array2<bool>, stream: seq<Byte>)
    returns (best: Grid, ghost grids: seq<Grid>, ghost penalties: seq<int>, ghost winner: nat)
    requires IsVersion(version) && IsSquare(base, Size(version)) && MarksReserved(version, reserved)
    requires Rows(base) == BaseGrid(version)
    ensures |grids| == 8 && AreScored(version, stream, grids, penalties)
    ensures IsFirstLeast(penalties, winner) && best == grids[winner]
  {
    hide IsScored, Rows, MarksReserved, AreScored, IsCandidate;
    var least;
    best, least := ScoredCandidate(version, base, reserved, stream, 0);
    ChoiceStarts(version, stream, best, least);
    grids, penalties, winner := [best], [least], 0;
    for mask := 1 to 8
      invariant |grids| == mask && IsChosen(version, stream, grids, penalties, winner, best, least)
    {
      var matrix, penalty := ScoredCandidate(version, base, reserved, stream, mask);
      ChoiceGrows(version, stream, grids, penalties, winner, best, least, matrix, penalty);
      grids, penalties := grids + [matrix], penalties + [penalty];
      if penalty < least {
        best, least, winner := matrix, penalty, mask;
      }
    }
  }

  method ScoredCandidate(version: nat, base: array2<bool>, reserved: array2<bool>, stream: seq<Byte>, mask: nat)
    returns (grid: Grid, penalty: int)
    requires IsVersion(version) && IsSquare(base, Size(version)) && MarksReserved(version, reserved)
    requires Rows(base) == BaseGrid(version) && mask < 8
    ensures IsScored(version, stream, mask, grid, penalty)
  {
    grid := Candidate(version, base, reserved, stream, mask);
    penalty := Score(grid);
  }

  method BuildMessage(tables: Tables, version: nat, data: seq<Byte>) returns (stream: seq<Byte>, ghost m: Message)
    requires tables.Valid() && IsVersion(version) && Fits(version, |data|)
    ensures Carries(version, data, m) && stream == m.stream
  {
    var words := BuildWords(version, data);
    var blocks := SplitBlocks(version, words);
    ghost var ecBlocks;
    var longest;
    stream, ecBlocks, longest := Interleave(tables, blocks, Spec(version).ecPerBlock);
    m := Message(words, blocks, ecBlocks, longest, stream);
  }

  method Patterns(version: nat) returns (base: array2<bool>)
    requires IsVersion(version)
    ensures IsSquare(base, Size(version)) && Rows(base) == BaseGrid(version)
  {
    base := FunctionPatterns(version);
    ghost var grid := BaseGrid(version);
    forall r | 0 <= r < Size(version) ensures RowOf(base, r) == grid[r] {
      forall c | 0 <= c < Size(version) ensures RowOf(base, r)[c] == grid[r][c] {
        assert grid[r][c] == At(grid, Cell(r, c));
      }
    }
  }

  ghost predicate IsLeast(version: nat, length: nat) {
    IsVersion(version) && Fits(version, length) && forall v :: MIN_VERSION <= v < version ==> !Fits(v, length)
  }

  /** Refuse exactly the data that no version holds; otherwise the least version and the best mask,
    in a symbol that reads back to the data. */
  method EncodeQr(tables: Tables, data: seq<Byte>)
    returns (result: Encoded, ghost m: Message, ghost grids: seq<Grid>, ghost penalties: seq<int>, ghost winner: nat)
    requires tables.Valid()
    ensures result.CapacityError? <==> |data| > 213
    ensures result.CapacityError? ==> result.length == |data|
    ensures result.Symbol? ==> IsLeast(result.version, |data|) && result.size == Size(result.version)
    ensures result.Symbol? ==> Carries(result.version, data, m)
    ensures result.Symbol? ==> |grids| == 8 && AreScored(result.version, m.stream, grids, penalties)
    ensures result.Symbol? ==> IsFirstLeast(penalties, winner) && result.modules == grids[winner]
    ensures result.Symbol? ==> Read(result.modules) == Some(data)
  {
    m, grids, penalties, winner := Message([], [], [], 0, []), [], [], 0;
    var version := ChooseVersion(|data|);
    if version.None? {
      return CapacityError(|data|), m, grids, penalties, winner;
    }
    var stream, modules;
    stream, m := BuildMessage(tables, version.value, data);
    var reserved := ReservedMatrix(version.value);
    var base := Patterns(version.value);
    modules, grids, penalties, winner := ChooseMask(version.value, base, reserved, stream);
    assert IsScored(version.value, stream, winner, modules, penalties[winner]);
    CandidateReads(version.value, data, m, winner, modules);
    result := Symbol(Size(version.value), modules, version.value);
  }
}
