/** Splitting codewords into blocks, error correction per block, and interleaving
  (section 7.6 of ISO/IEC 18004:2015), from apps/web/src/lib/qr.ts, with the reader's inverse.
 */
module QrBlocks {
  import opened Arithmetic
  import opened Bytes
  import opened QrVersions
  import opened GaloisTables
  import RS = ReedSolomon

  type Block = seq<Byte>

  /** All blocks one after the other. */
  function Flatten(blocks: seq<Block>): Block {
    if blocks == [] then [] else Flatten(blocks[..|blocks| - 1]) + blocks[|blocks| - 1]
  }

  function Lengths(blocks: seq<Block>): (lengths: seq<nat>)
    ensures |lengths| == |blocks| && forall j :: 0 <= j < |blocks| ==> lengths[j] == |blocks[j]|
  {
    if blocks == [] then [] else Lengths(blocks[..|blocks| - 1]) + [|blocks[|blocks| - 1]|]
  }

  function Total(lengths: seq<nat>): nat {
    if lengths == [] then 0 else Total(lengths[..|lengths| - 1]) + lengths[|lengths| - 1]
  }

  // ----- interleaving

  /** The words at index `i` of the blocks long enough to have one. */
  function Column(blocks: seq<Block>, i: nat): Block {
    if blocks == [] then [] else
    var last := blocks[|blocks| - 1];
    Column(blocks[..|blocks| - 1], i) + (if i < |last| then [last[i]] else [])
  }

  /** The first `n` columns, one after the other. */
  function Columns(blocks: seq<Block>, n: nat): Block {
    if n == 0 then [] else Columns(blocks, n - 1) + Column(blocks, n - 1)
  }

  /** How many of the lengths exceed `i`. */
  function CountAbove(lengths: seq<nat>, i: nat): nat {
    if lengths == [] then 0
    else CountAbove(lengths[..|lengths| - 1], i) + if i < lengths[|lengths| - 1] then 1 else 0
  }

  /** How many words the first `n` columns hold. */
  function WordsBefore(lengths: seq<nat>, n: nat): nat {
    if n == 0 then 0 else WordsBefore(lengths, n - 1) + CountAbove(lengths, n - 1)
  }

  /** Where word `i` of block `j` stands in the interleaved stream. */
  function Position(lengths: seq<nat>, i: nat, j: nat): nat
    requires j < |lengths|
  {
    WordsBefore(lengths, i) + CountAbove(lengths[..j], i)
  }

  /** The reader's inverse: pick each block's words out of the stream. */
  function Deinterleave(lengths: seq<nat>, stream: Block): (blocks: seq<Block>)
    ensures |blocks| == |lengths| && forall j :: 0 <= j < |lengths| ==> |blocks[j]| == lengths[j]
  {
    seq(|lengths|, j requires 0 <= j < |lengths| =>
      seq(lengths[j], i requires 0 <= i < lengths[j] => WordAt(stream, Position(lengths, i, j))))
  }

  function WordAt(stream: Block, position: nat): Byte {
    if position < |stream| then stream[position] else 0
  }

  lemma {:induction false} ColumnLength(blocks: seq<Block>, i: nat)
    ensures |Column(blocks, i)| == CountAbove(Lengths(blocks), i)
  {
    if blocks != [] {
      ColumnLength(blocks[..|blocks| - 1], i);
      assert Lengths(blocks)[..|blocks| - 1] == Lengths(blocks[..|blocks| - 1]);
    }
  }

  lemma {:induction false} ColumnAt(blocks: seq<Block>, i: nat, j: nat)
    requires j < |blocks| && i < |blocks[j]|
    ensures CountAbove(Lengths(blocks)[..j], i) < |Column(blocks, i)|
    ensures Column(blocks, i)[CountAbove(Lengths(blocks)[..j], i)] == blocks[j][i]
    decreases |blocks|
  {
    var n := |blocks| - 1;
    var rest := blocks[..n];
    ColumnLength(rest, i);
    assert Lengths(blocks)[..n] == Lengths(rest);
    if j < n {
      ColumnAt(rest, i, j);
      assert Lengths(blocks)[..j] == Lengths(rest)[..j];
    }
  }

  lemma {:induction false} ColumnsLength(blocks: seq<Block>, n: nat)
    ensures |Columns(blocks, n)| == WordsBefore(Lengths(blocks), n)
  {
    if n > 0 {
      var i := n - 1;
      ColumnsLength(blocks, i);
      ColumnLength(blocks, i);
      assert Columns(blocks, n) == Columns(blocks, i) + Column(blocks, i);
    }
  }

  lemma {:induction false} ColumnsExtend(blocks: seq<Block>, m: nat, n: nat)
    requires m <= n
    ensures Columns(blocks, m) <= Columns(blocks, n)
    decreases n
  {
    if m < n { ColumnsExtend(blocks, m, n - 1); }
  }

  lemma ColumnsHold(blocks: seq<Block>, n: nat, i: nat, k: nat)
    requires i < n && k < |Column(blocks, i)|
    ensures |Columns(blocks, i)| + k < |Columns(blocks, n)|
    ensures Columns(blocks, n)[|Columns(blocks, i)| + k] == Column(blocks, i)[k]
  {
    NextColumns(blocks, i);
    ColumnsExtend(blocks, i + 1, n);
    InPrefix(Columns(blocks, i), Column(blocks, i), Columns(blocks, i + 1), Columns(blocks, n), k);
  }

  lemma NextColumns(blocks: seq<Block>, i: nat)
    ensures Columns(blocks, i + 1) == Columns(blocks, i) + Column(blocks, i)
  {
  }

  /** Word `i` of block `j` is where `Position` says. */
  lemma ColumnsAt(blocks: seq<Block>, n: nat, i: nat, j: nat)
    requires j < |blocks| && i < |blocks[j]| && i < n
    ensures Position(Lengths(blocks), i, j) < |Columns(blocks, n)|
    ensures Columns(blocks, n)[Position(Lengths(blocks), i, j)] == blocks[j][i]
  {
    hide Column, CountAbove, WordsBefore;
    ColumnsLength(blocks, i);
    ColumnAt(blocks, i, j);
    ColumnsHold(blocks, n, i, CountAbove(Lengths(blocks)[..j], i));
  }

  lemma InPrefix(front: Block, column: Block, next: Block, all: Block, k: nat)
    requires next == front + column && next <= all && k < |column|
    ensures |front| + k < |all| && all[|front| + k] == column[k]
  {
    assert next[|front| + k] == column[k];
    assert all[|front| + k] == next[|front| + k];
  }

  /** Deinterleaving undoes interleaving for any blocks, of equal length or not. */
  lemma DeinterleaveUndoes(blocks: seq<Block>, n: nat, tail: Block)
    requires forall j :: 0 <= j < |blocks| ==> |blocks[j]| <= n
    ensures Deinterleave(Lengths(blocks), Columns(blocks, n) + tail) == blocks
  {
    hide Columns, Lengths;
    var stream := Columns(blocks, n) + tail;
    var back := Deinterleave(Lengths(blocks), stream);
    forall j | 0 <= j < |blocks| ensures back[j] == blocks[j] {
      forall i | 0 <= i < |blocks[j]| ensures back[j][i] == blocks[j][i] {
        ColumnsAt(blocks, n, i, j);
        assert back[j][i] == WordAt(stream, Position(Lengths(blocks), i, j));
      }
    }
  }

  /** Every word has its place: the stream holds exactly as many words as the blocks. */
  lemma {:induction false} WordsBeforeTotal(lengths: seq<nat>, n: nat)
    requires forall j :: 0 <= j < |lengths| ==> lengths[j] <= n
    ensures WordsBefore(lengths, n) == Total(lengths)
  {
    if lengths == [] {
      WordsBeforeNone(n);
    } else {
      var rest, last := lengths[..|lengths| - 1], lengths[|lengths| - 1];
      WordsBeforeTotal(rest, n);
      WordsBeforeSplits(lengths, n);
    }
  }

  lemma {:induction false} WordsBeforeNone(n: nat)
    ensures WordsBefore([], n) == 0
  {
    if n > 0 { WordsBeforeNone(n - 1); }
  }

  lemma {:induction false} WordsBeforeSplits(lengths: seq<nat>, n: nat)
    requires lengths != []
    ensures var last := lengths[|lengths| - 1];
      WordsBefore(lengths, n) == WordsBefore(lengths[..|lengths| - 1], n) + if last <= n then last else n
  {
    if n > 0 { WordsBeforeSplits(lengths, n - 1); }
  }

  // ----- the source's operations

  /** The blocks cut `words` into the lengths the version prescribes. */
  ghost predicate Splits(version: nat, words: Block, blocks: seq<Block>)
    requires IsVersion(version)
  {
    Flatten(blocks) == words && Lengths(blocks) == BlockLengths(Spec(version).groups)
  }

  method SplitBlocks(version: nat, words: Block) returns (blocks: seq<Block>)
    requires IsVersion(version) && |words| == DataCodewords(version)
    ensures Splits(version, words, blocks)
  {
    var groups := Spec(version).groups;
    blocks := [];
    var offset := 0;
    for g := 0 to |groups|
      invariant offset == GroupTotal(groups[..g]) && offset <= |words|
      invariant Flatten(blocks) == words[..offset]
      invariant Lengths(blocks) == BlockLengths(groups[..g])
    {
      GroupTotalGrows(groups, g);
      assert groups[..g + 1][..g] == groups[..g];
      TimesIsProduct(groups[g].0, groups[g].1);
      blocks := SplitGroup(words, offset, groups[g].0, groups[g].1, blocks);
      offset := offset + groups[g].0 * groups[g].1;
    }
    assert groups[..|groups|] == groups;
  }

  lemma AppendBlock(blocks: seq<Block>, block: Block)
    ensures Flatten(blocks + [block]) == Flatten(blocks) + block
    ensures Lengths(blocks + [block]) == Lengths(blocks) + [|block|]
  {
    assert (blocks + [block])[..|blocks|] == blocks;
  }

  /** `count` blocks of equal size. */
  function Repeat(size: nat, count: nat): (lengths: seq<nat>)
  {
    seq(count, _ => size)
  }

  lemma SplitStep(words: Block, offset: nat, size: nat, blocks: seq<Block>, before: seq<Block>, count: nat)
    requires offset + size <= |words| && Flatten(blocks) == words[..offset]
    requires Lengths(blocks) == Lengths(before) + Repeat(size, count)
    ensures var next := blocks + [words[offset..offset + size]];
      Flatten(next) == words[..offset + size] && Lengths(next) == Lengths(before) + Repeat(size, count + 1)
  {
    hide Flatten, Lengths;
    AppendBlock(blocks, words[offset..offset + size]);
    assert Repeat(size, count) + [size] == Repeat(size, count + 1);
  }

  method SplitGroup(words: Block, start: nat, blockCount: nat, perBlock: nat, before: seq<Block>)
    returns (blocks: seq<Block>)
    requires start + Times(blockCount, perBlock) <= |words| && Flatten(before) == words[..start]
    ensures Flatten(blocks) == words[..start + Times(blockCount, perBlock)]
    ensures Lengths(blocks) == Lengths(before) + Repeat(perBlock, blockCount)
  {
    blocks := before;
    var offset := start;
    for block := 0 to blockCount
      invariant 0 <= offset <= |words|
      invariant offset + Times(blockCount - block, perBlock) == start + Times(blockCount, perBlock)
      invariant Flatten(blocks) == words[..offset]
      invariant Lengths(blocks) == Lengths(before) + Repeat(perBlock, block)
    {
      SplitStep(words, offset, perBlock, blocks, before, block);
      blocks := blocks + [words[offset..offset + perBlock]];
      offset := offset + perBlock;
    }
  }

  lemma {:induction false} GroupTotalGrows(groups: seq<(nat, nat)>, g: nat)
    requires g < |groups|
    ensures GroupTotal(groups[..g]) + groups[g].0 * groups[g].1 <= GroupTotal(groups)
    decreases |groups|
  {
    var n := |groups| - 1;
    if g < n {
      GroupTotalGrows(groups[..n], g);
      assert groups[..n][..g] == groups[..g];
    }
  }

  ghost predicate IsCorrection(block: Block, rest: Block, ecPerBlock: nat) {
    |rest| == ecPerBlock && RS.IsRemainder(block, RS.Generator(ecPerBlock), rest)
  }

  /** One error correction block per data block, each the remainder of its block. */
  ghost predicate Corrects(blocks: seq<Block>, ecBlocks: seq<Block>, ecPerBlock: nat) {
    |ecBlocks| == |blocks| && forall j :: 0 <= j < |blocks| ==> IsCorrection(blocks[j], ecBlocks[j], ecPerBlock)
  }

  method CorrectAll(tables: Tables, blocks: seq<Block>, ecPerBlock: nat) returns (ecBlocks: seq<Block>)
    requires tables.Valid() && 0 < ecPerBlock <= 255
    ensures Corrects(blocks, ecBlocks, ecPerBlock)
  {
    hide RS.IsRemainder, RS.Generator;
    ecBlocks := [];
    for j := 0 to |blocks|
      invariant |ecBlocks| == j && forall k :: 0 <= k < j ==> IsCorrection(blocks[k], ecBlocks[k], ecPerBlock)
    {
      var rest := RS.Encode(tables, blocks[j], ecPerBlock);
      ecBlocks := ecBlocks + [rest];
    }
  }

  ghost predicate IsLongest(blocks: seq<Block>, longest: nat) {
    && (forall j :: 0 <= j < |blocks| ==> |blocks[j]| <= longest)
    && (longest == 0 || exists j :: 0 <= j < |blocks| && |blocks[j]| == longest)
  }

  /** The transmitted words: all data columns, then all error correction columns. */
  ghost predicate IsInterleaved(blocks: seq<Block>, ecBlocks: seq<Block>, ecPerBlock: nat, longest: nat, words: Block) {
    && IsLongest(blocks, longest)
    && words == Columns(blocks, longest) + Columns(ecBlocks, ecPerBlock)
  }

  method Interleave(tables: Tables, blocks: seq<Block>, ecPerBlock: nat)
    returns (output: Block, ghost ecBlocks: seq<Block>, longest: nat)
    requires tables.Valid() && 0 < ecPerBlock <= 255
    ensures Corrects(blocks, ecBlocks, ecPerBlock)
    ensures IsInterleaved(blocks, ecBlocks, ecPerBlock, longest, output)
  {
    var ec := CorrectAll(tables, blocks, ecPerBlock);
    ecBlocks := ec;
    longest := Longest(blocks);
    output := PushBoth(blocks, longest, ec, ecPerBlock);
  }

  method PushBoth(blocks: seq<Block>, longest: nat, ecBlocks: seq<Block>, ecPerBlock: nat) returns (output: Block)
    ensures output == Columns(blocks, longest) + Columns(ecBlocks, ecPerBlock)
  {
    output := PushColumns(blocks, longest, []);
    output := PushColumns(ecBlocks, ecPerBlock, output);
  }

  method PushColumns(blocks: seq<Block>, count: nat, before: Block) returns (output: Block)
    ensures output == before + Columns(blocks, count)
  {
    output := before;
    for index := 0 to count
      invariant output == before + Columns(blocks, index)
    {
      var column := TakeColumn(blocks, index);
      output := output + column;
    }
  }

  method Longest(blocks: seq<Block>) returns (longest: nat)
    ensures IsLongest(blocks, longest)
  {
    longest := 0;
    for j := 0 to |blocks|
      invariant forall k :: 0 <= k < j ==> |blocks[k]| <= longest
      invariant longest == 0 || exists k :: 0 <= k < j && |blocks[k]| == longest
    {
      if longest < |blocks[j]| { longest := |blocks[j]|; }
    }
  }

  method TakeColumn(blocks: seq<Block>, index: nat) returns (column: Block)
    ensures column == Column(blocks, index)
  {
    column := [];
    for j := 0 to |blocks|
      invariant column == Column(blocks[..j], index)
    {
      assert blocks[..j + 1][..j] == blocks[..j];
      if index < |blocks[j]| {
        column := column + [blocks[j][index]];
      }
    }
    assert blocks[..|blocks|] == blocks;
  }
}
