/**
 Splitting the data codewords into blocks, appending each block's error correction, and interleaving the
 blocks column by column (section 7.6 of ISO/IEC 18004:2015).
 */
module Interleave {
  import opened Wrappers
  import opened GaloisField
  import opened ReedSolomon
  import opened QrTables

  datatype InterleaveError = WrongDataLength

  /** The first shortBlocks blocks hold dataLen data codewords each, the others one more. */
  datatype Shape = Shape(blocks: nat, shortBlocks: nat, dataLen: nat, eccLen: nat) {
    ghost predicate Valid() {
      1 <= shortBlocks <= blocks && 1 <= eccLen <= 255
    }

    function BlockLen(j: nat): nat {
      if j < shortBlocks then dataLen else dataLen + 1
    }

    /** Where block j starts among the data codewords. */
    function BlockStart(j: nat): nat {
      j * dataLen + (if j <= shortBlocks then 0 else j - shortBlocks)
    }

    /** The length of every block once short blocks are padded. */
    function PaddedLen(): nat {
      dataLen + 1 + eccLen
    }

    /** Where column i starts in the interleaved sequence. */
    function ColumnStart(i: nat): int {
      if i <= dataLen then i * blocks else i * blocks - shortBlocks
    }

    /** The blocks that have a codeword in column i: the padding column skips the short ones. */
    function ColumnFirst(i: nat): nat {
      if i == dataLen then shortBlocks else 0
    }
  }

  function ShapeOf(v: Version, ecl: Ecc): (s: Shape)
    ensures s.Valid()
    ensures s.BlockStart(s.blocks) == NumDataCodewords(v, ecl)
    ensures s.ColumnStart(s.PaddedLen()) == RawCodewords(v)
    ensures s.PaddedLen() <= 255
  {
    TablesFit(v, ecl);
    var raw, blocks, ecc := RawCodewords(v), NumBlocks(v, ecl), EccLen(v, ecl);
    ShapeArithmetic(raw, blocks, ecc);
    Shape(blocks, blocks - raw % blocks, raw / blocks - ecc, ecc)
  }

  lemma ShapeArithmetic(raw: nat, blocks: nat, ecc: nat)
    requires 1 <= blocks && 1 <= ecc
    requires (ecc + 1) * blocks <= raw <= 254 * blocks
    ensures raw / blocks - ecc >= 1 && raw / blocks <= 254
    ensures var dataLen, shortBlocks := raw / blocks - ecc, blocks - raw % blocks;
            && blocks * dataLen + (blocks - shortBlocks) == raw - ecc * blocks
            && (dataLen + 1 + ecc) * blocks - shortBlocks == raw
  {
    var q, r := raw / blocks, raw % blocks;
    assert raw == q * blocks + r;
    assert (ecc + 1) * blocks == ecc * blocks + blocks;
    assert q < ecc + 1 ==> q * blocks <= ecc * blocks;
    assert q > 254 ==> q * blocks >= 255 * blocks;
    assert blocks * (q - ecc) == q * blocks - ecc * blocks;
  }

  // ----- splitting

  lemma BlockStartStep(s: Shape, j: nat)
    ensures s.BlockStart(j + 1) == s.BlockStart(j) + s.BlockLen(j)
  {
  }

  lemma {:induction false} BlockStartGrows(s: Shape, j: nat, k: nat)
    requires j <= k
    ensures s.BlockStart(j) <= s.BlockStart(k)
    decreases k - j
  {
    if j < k {
      BlockStartStep(s, j);
      BlockStartGrows(s, j + 1, k);
    }
  }

  function Block(data: Poly, s: Shape, j: nat): (b: Poly)
    requires j < s.blocks && |data| == s.BlockStart(s.blocks)
    ensures |b| == s.BlockLen(j)
  {
    BlockStartStep(s, j);
    BlockStartGrows(s, j + 1, s.blocks);
    data[s.BlockStart(j)..s.BlockStart(j + 1)]
  }

  function BlockEcc(data: Poly, s: Shape, j: nat): (e: Poly)
    requires s.Valid() && j < s.blocks && |data| == s.BlockStart(s.blocks)
    ensures |e| == s.eccLen
  {
    Remainder(Block(data, s, j), Divisor(s.eccLen))
  }

  /** Block j, padded if it is short, followed by its error correction. */
  function PaddedBlock(data: Poly, s: Shape, j: nat): (b: Poly)
    requires s.Valid() && j < s.blocks && |data| == s.BlockStart(s.blocks)
    ensures |b| == s.PaddedLen()
  {
    Block(data, s, j) + (if j < s.shortBlocks then [ZERO] else []) + BlockEcc(data, s, j)
  }

  // ----- interleaving

  ghost predicate Padded(blocks: seq<Poly>, s: Shape)
  {
    s.Valid() && |blocks| == s.blocks && forall j :: 0 <= j < |blocks| ==> |blocks[j]| == s.PaddedLen()
  }

  function Column(blocks: seq<Poly>, s: Shape, i: nat): (c: Poly)
    requires Padded(blocks, s) && i < s.PaddedLen()
    ensures |c| == s.blocks - s.ColumnFirst(i)
  {
    var first := s.ColumnFirst(i);
    seq(s.blocks - first, j requires 0 <= j < s.blocks - first => blocks[first + j][i])
  }

  /** The first n columns, one after the other. */
  function Columns(blocks: seq<Poly>, s: Shape, n: nat): (c: Poly)
    requires Padded(blocks, s) && n <= s.PaddedLen()
    ensures |c| == s.ColumnStart(n)
  {
    if n == 0 then [] else Columns(blocks, s, n - 1) + Column(blocks, s, n - 1)
  }

  /** Where codeword i of block j lands. */
  function Position(s: Shape, j: nat, i: nat): int
  {
    s.ColumnStart(i) + j - s.ColumnFirst(i)
  }

  lemma ColumnStartStep(s: Shape, i: nat)
    ensures s.ColumnStart(i + 1) == s.ColumnStart(i) + s.blocks - s.ColumnFirst(i)
  {
    assert (i + 1) * s.blocks == i * s.blocks + s.blocks;
  }

  lemma {:induction false} ColumnStartMonotone(s: Shape, i: nat, n: nat)
    requires s.Valid() && i <= n
    ensures s.ColumnStart(i) <= s.ColumnStart(n)
    decreases n - i
  {
    hide s.ColumnStart;
    if i < n {
      ColumnStartStep(s, i);
      ColumnStartMonotone(s, i + 1, n);
    }
  }

  lemma ColumnStartGrows(s: Shape, i: nat, n: nat)
    requires s.Valid() && i < n
    ensures 0 <= s.ColumnStart(i) && s.ColumnStart(i) + s.blocks - s.ColumnFirst(i) == s.ColumnStart(i + 1) <= s.ColumnStart(n)
  {
    assert s.ColumnStart(0) == 0;
    hide s.ColumnStart;
    ColumnStartMonotone(s, 0, i);
    ColumnStartStep(s, i);
    ColumnStartMonotone(s, i + 1, n);
  }

  lemma {:induction false} ColumnsAt(blocks: seq<Poly>, s: Shape, n: nat, j: nat, i: nat)
    requires Padded(blocks, s) && i < n <= s.PaddedLen()
    requires s.ColumnFirst(i) <= j < s.blocks
    ensures 0 <= Position(s, j, i) < s.ColumnStart(n)
    ensures Columns(blocks, s, n)[Position(s, j, i)] == blocks[j][i]
  {
    ColumnStartGrows(s, i, n);
    if i < n - 1 {
      ColumnsAt(blocks, s, n - 1, j, i);
    }
  }

  function PaddedBlocks(data: Poly, s: Shape, n: nat): (b: seq<Poly>)
    requires s.Valid() && n <= s.blocks && |data| == s.BlockStart(s.blocks)
    ensures |b| == n
    ensures forall j :: 0 <= j < n ==> b[j] == PaddedBlock(data, s, j)
  {
    seq(n, j requires 0 <= j < n => PaddedBlock(data, s, j))
  }

  /** All codewords, data and error correction, in the order they are drawn. */
  function Interleaved(data: Poly, s: Shape): (c: Poly)
    requires s.Valid() && |data| == s.BlockStart(s.blocks)
    ensures |c| == s.ColumnStart(s.PaddedLen())
  {
    Columns(PaddedBlocks(data, s, s.blocks), s, s.PaddedLen())
  }

  method AddEccAndInterleave(data: Poly, v: Version, ecl: Ecc) returns (r: Result<Poly, InterleaveError>)
    ensures r.Ok? <==> |data| == NumDataCodewords(v, ecl)
    ensures r.Ok? ==> |r.value| == RawCodewords(v)
    ensures r.Ok? ==> r.value == Interleaved(data, ShapeOf(v, ecl))
  {
    if |data| != NumDataCodewords(v, ecl) {
      return Err(WrongDataLength);
    }
    var s := ShapeOf(v, ecl);
    var blocks := SplitIntoBlocks(data, s);
    var result := InterleaveBlocks(blocks, s);
    r := Ok(result);
  }

  /** The padded blocks in order: data, the filler of a short block, error correction. */
  method SplitIntoBlocks(data: Poly, s: Shape) returns (blocks: seq<Poly>)
    requires s.Valid() && |data| == s.BlockStart(s.blocks)
    ensures blocks == PaddedBlocks(data, s, s.blocks)
  {
    hide Remainder, Divisor;
    var division := ComputeDivisor(s.eccLen);
    var divisor := division.value;
    blocks := [];
    var k := 0;
    for i := 0 to s.blocks
      invariant k == s.BlockStart(i)
      invariant blocks == PaddedBlocks(data, s, i)
    {
      BlockStartStep(s, i);
      BlockStartGrows(s, i + 1, s.blocks);
      var dat := data[k..k + s.dataLen + (if i < s.shortBlocks then 0 else 1)];
      k := k + |dat|;
      var ecc := ComputeRemainder(dat, divisor);
      if i < s.shortBlocks {
        dat := dat + [ZERO];
      }
      dat := dat + ecc;
      assert dat == PaddedBlock(data, s, i);
      blocks := blocks + [dat];
    }
  }

  /** Column by column through all blocks. */
  method InterleaveBlocks(blocks: seq<Poly>, s: Shape) returns (result: Poly)
    requires Padded(blocks, s)
    ensures result == Columns(blocks, s, s.PaddedLen())
  {
    hide ZERO;
    result := [];
    for i := 0 to |blocks[0]|
      invariant result == Columns(blocks, s, i)
    {
      ghost var done, column, first := result, Column(blocks, s, i), s.ColumnFirst(i);
      for j := 0 to |blocks|
        invariant result == done + (if j <= first then [] else column[..j - first])
      {
        if i != s.dataLen || j >= s.shortBlocks {
          assert column[..j - first] + [blocks[j][i]] == column[..j + 1 - first];
          result := result + [blocks[j][i]];
        }
      }
      assert column[..|blocks| - first] == column;
    }
  }

  // ----- reading the codewords back

  /** Block j's data codewords, read from the interleaved sequence. */
  function ReadBlock(codewords: Poly, s: Shape, j: nat): (b: Poly)
    requires s.Valid() && j < s.blocks && |codewords| == s.ColumnStart(s.PaddedLen())
    ensures |b| == s.BlockLen(j)
  {
    seq(s.BlockLen(j), i requires 0 <= i < s.BlockLen(j) =>
      (PositionInRange(s, j, i); codewords[Position(s, j, i)]))
  }

  /** Block j's error correction codewords, read from the interleaved sequence. */
  function ReadEcc(codewords: Poly, s: Shape, j: nat): (e: Poly)
    requires s.Valid() && j < s.blocks && |codewords| == s.ColumnStart(s.PaddedLen())
    ensures |e| == s.eccLen
  {
    seq(s.eccLen, k requires 0 <= k < s.eccLen =>
      (PositionInRange(s, j, s.dataLen + 1 + k); codewords[Position(s, j, s.dataLen + 1 + k)]))
  }

  /** The data codewords of the first n blocks. */
  function ReadData(codewords: Poly, s: Shape, n: nat): Poly
    requires s.Valid() && n <= s.blocks && |codewords| == s.ColumnStart(s.PaddedLen())
  {
    if n == 0 then [] else ReadData(codewords, s, n - 1) + ReadBlock(codewords, s, n - 1)
  }

  lemma PositionInRange(s: Shape, j: nat, i: nat)
    requires s.Valid() && i < s.PaddedLen() && s.ColumnFirst(i) <= j < s.blocks
    ensures 0 <= Position(s, j, i) < s.ColumnStart(s.PaddedLen())
  {
    ColumnStartGrows(s, i, s.PaddedLen());
  }

  lemma DeinterleaveBlock(data: Poly, s: Shape, j: nat)
    requires s.Valid() && j < s.blocks && |data| == s.BlockStart(s.blocks)
    ensures ReadBlock(Interleaved(data, s), s, j) == Block(data, s, j)
    ensures ReadEcc(Interleaved(data, s), s, j) == BlockEcc(data, s, j)
  {
    hide Remainder, Divisor;
    var blocks, c, n := PaddedBlocks(data, s, s.blocks), Interleaved(data, s), s.PaddedLen();
    forall i | 0 <= i < s.BlockLen(j) ensures ReadBlock(c, s, j)[i] == Block(data, s, j)[i] {
      ColumnsAt(blocks, s, n, j, i);
    }
    forall k | 0 <= k < s.eccLen ensures ReadEcc(c, s, j)[k] == BlockEcc(data, s, j)[k] {
      ColumnsAt(blocks, s, n, j, s.dataLen + 1 + k);
    }
  }

  lemma {:induction false} ReadDataPrefix(data: Poly, s: Shape, n: nat)
    requires s.Valid() && n <= s.blocks && |data| == s.BlockStart(s.blocks)
    ensures s.BlockStart(n) <= |data|
    ensures ReadData(Interleaved(data, s), s, n) == data[..s.BlockStart(n)]
  {
    hide Interleaved, ReadBlock, BlockEcc;
    BlockStartGrows(s, n, s.blocks);
    if n > 0 {
      ReadDataPrefix(data, s, n - 1);
      DeinterleaveBlock(data, s, n - 1);
      BlockStartStep(s, n - 1);
      var i, k := s.BlockStart(n - 1), s.BlockStart(n);
      assert data[..k] == data[..i] + Block(data, s, n - 1);
    }
  }

  /** Reading the blocks back in order returns the data codewords, for short and long blocks alike. */
  lemma DeinterleaveData(data: Poly, s: Shape)
    requires s.Valid() && |data| == s.BlockStart(s.blocks)
    ensures ReadData(Interleaved(data, s), s, s.blocks) == data
  {
    ReadDataPrefix(data, s, s.blocks);
  }

  /** Every block read back, with its error correction, is zero at each root of the generator. */
  lemma BlocksAreCodewords(data: Poly, s: Shape, j: nat, i: nat)
    requires s.Valid() && j < s.blocks && i < s.eccLen && |data| == s.BlockStart(s.blocks)
    ensures var c := Interleaved(data, s);
            Eval(ReadBlock(c, s, j) + ReadEcc(c, s, j), Pow(TWO, i)) == ZERO
  {
    hide Eval, Remainder, Divisor, Pow, Interleaved;
    DeinterleaveBlock(data, s, j);
    CodewordVanishesAtRoots(Block(data, s, j), s.eccLen, i);
  }

  /** The blocks as read back, with a padding codeword where a short block has one. */
  function ReadPaddedBlocks(codewords: Poly, s: Shape): (blocks: seq<Poly>)
    requires s.Valid() && |codewords| == s.ColumnStart(s.PaddedLen())
    ensures Padded(blocks, s)
  {
    seq(s.blocks, j requires 0 <= j < s.blocks =>
      ReadBlock(codewords, s, j) + (if j < s.shortBlocks then [ZERO] else []) + ReadEcc(codewords, s, j))
  }

  lemma ReadPaddedAt(codewords: Poly, s: Shape, j: nat, i: nat)
    requires s.Valid() && |codewords| == s.ColumnStart(s.PaddedLen())
    requires i < s.PaddedLen() && s.ColumnFirst(i) <= j < s.blocks
    ensures 0 <= Position(s, j, i) < |codewords|
    ensures ReadPaddedBlocks(codewords, s)[j][i] == codewords[Position(s, j, i)]
  {
    PositionInRange(s, j, i);
  }

  /** Column i lands in one stretch, in block order. */
  lemma ColumnIsStretch(codewords: Poly, s: Shape, i: nat)
    requires s.Valid() && i < s.PaddedLen() && |codewords| == s.ColumnStart(s.PaddedLen())
    ensures 0 <= s.ColumnStart(i) <= s.ColumnStart(i + 1) <= |codewords|
    ensures Column(ReadPaddedBlocks(codewords, s), s, i) == codewords[s.ColumnStart(i)..s.ColumnStart(i + 1)]
  {
    ColumnStartGrows(s, i, s.PaddedLen());
    var c, first := Column(ReadPaddedBlocks(codewords, s), s, i), s.ColumnFirst(i);
    forall m | 0 <= m < |c| ensures c[m] == codewords[s.ColumnStart(i) + m] {
      hide s.ColumnStart, ReadPaddedBlocks;
      ReadPaddedAt(codewords, s, first + m, i);
    }
  }

  /** Any codeword sequence is the interleaving of the blocks read from it: every position is used once. */
  lemma {:induction false} ReinterleaveColumns(codewords: Poly, s: Shape, n: nat)
    requires s.Valid() && n <= s.PaddedLen() && |codewords| == s.ColumnStart(s.PaddedLen())
    ensures 0 <= s.ColumnStart(n) <= |codewords|
    ensures Columns(ReadPaddedBlocks(codewords, s), s, n) == codewords[..s.ColumnStart(n)]
  {
    if n > 0 {
      ReinterleaveColumns(codewords, s, n - 1);
      ColumnIsStretch(codewords, s, n - 1);
    }
  }

  lemma Reinterleave(codewords: Poly, s: Shape)
    requires s.Valid() && |codewords| == s.ColumnStart(s.PaddedLen())
    ensures Columns(ReadPaddedBlocks(codewords, s), s, s.PaddedLen()) == codewords
  {
    ReinterleaveColumns(codewords, s, s.PaddedLen());
  }

  // ----- which codeword is where

  predicate Shows(codewords: Poly, at: int, value: Byte)
  {
    0 <= at < |codewords| && codewords[at] == value
  }

  /** Where a block begins: before it lie short blocks, and long ones with a codeword more. */
  function Start(s: Shape, j: nat): int
  {
    j * s.dataLen + if j < s.shortBlocks then 0 else j - s.shortBlocks
  }

  lemma StartOfBlock(data: Poly, s: Shape, j: nat, i: nat)
    requires s.Valid() && j < s.blocks && |data| == s.BlockStart(s.blocks) && i < s.BlockLen(j)
    ensures Shows(data, Start(s, j) + i, Block(data, s, j)[i])
  {
    BlockStartGrows(s, j + 1, s.blocks);
    BlockStartStep(s, j);
    assert Start(s, j) == s.BlockStart(j);
    hide s.BlockStart, s.BlockLen, Start;
  }

  /** First come the data codewords: of every block the first, then of every block the second, and so on. */
  lemma DataPlace(data: Poly, s: Shape, j: nat, i: nat)
    requires s.Valid() && j < s.blocks && |data| == s.BlockStart(s.blocks) && i < s.dataLen
    ensures Start(s, j) + i < |data| && Shows(Interleaved(data, s), i * s.blocks + j, data[Start(s, j) + i])
  {
    var c := Interleaved(data, s);
    DeinterleaveBlock(data, s, j);
    StartOfBlock(data, s, j, i);
    PlacesInColumns(s, j, i);
    PositionInRange(s, j, i);
    hide Interleaved, Position, Start;
    assert ReadBlock(c, s, j)[i] == Block(data, s, j)[i];
  }

  /** Then one more of each long block. */
  lemma LastDataPlace(data: Poly, s: Shape, j: nat)
    requires s.Valid() && s.shortBlocks <= j < s.blocks && |data| == s.BlockStart(s.blocks)
    ensures Start(s, j) + s.dataLen < |data|
    ensures Shows(Interleaved(data, s), s.dataLen * s.blocks + (j - s.shortBlocks), data[Start(s, j) + s.dataLen])
  {
    var c := Interleaved(data, s);
    DeinterleaveBlock(data, s, j);
    StartOfBlock(data, s, j, s.dataLen);
    PlacesInColumns(s, j, 0);
    PositionInRange(s, j, s.dataLen);
    hide Interleaved, Position, Start;
    assert ReadBlock(c, s, j)[s.dataLen] == Block(data, s, j)[s.dataLen];
  }

  /** And then in the same way the error correction, which ends the sequence. */
  lemma EccPlace(data: Poly, s: Shape, j: nat, i: nat)
    requires s.Valid() && j < s.blocks && |data| == s.BlockStart(s.blocks) && i < s.eccLen
    ensures Shows(Interleaved(data, s), |data| + i * s.blocks + j, BlockEcc(data, s, j)[i])
    ensures |Interleaved(data, s)| == |data| + s.eccLen * s.blocks
  {
    hide Interleaved, Position, BlockEcc, Shows, Block, s.ColumnStart, s.ColumnFirst;
    EccAtPosition(data, s, j, i);
    PlacesInColumns(s, j, i);
  }

  lemma EccAtPosition(data: Poly, s: Shape, j: nat, i: nat)
    requires s.Valid() && j < s.blocks && |data| == s.BlockStart(s.blocks) && i < s.eccLen
    ensures Shows(Interleaved(data, s), Position(s, j, s.dataLen + 1 + i), BlockEcc(data, s, j)[i])
  {
    hide Interleaved, Position, BlockEcc, ReadEcc, Shows;
    DeinterleaveBlock(data, s, j);
    EccReadAt(Interleaved(data, s), s, j, i);
  }

  lemma EccReadAt(codewords: Poly, s: Shape, j: nat, i: nat)
    requires s.Valid() && j < s.blocks && |codewords| == s.ColumnStart(s.PaddedLen()) && i < s.eccLen
    ensures Shows(codewords, Position(s, j, s.dataLen + 1 + i), ReadEcc(codewords, s, j)[i])
  {
    PositionInRange(s, j, s.dataLen + 1 + i);
    hide Position;
  }

  lemma PlacesInColumns(s: Shape, j: nat, i: nat)
    requires s.Valid() && j < s.blocks
    ensures i < s.dataLen ==> Position(s, j, i) == i * s.blocks + j
    ensures Position(s, j, s.dataLen) == s.dataLen * s.blocks + (j - s.shortBlocks)
    ensures Position(s, j, s.dataLen + 1 + i) == s.BlockStart(s.blocks) + i * s.blocks + j
    ensures s.ColumnStart(s.PaddedLen()) == s.BlockStart(s.blocks) + s.eccLen * s.blocks
    ensures s.shortBlocks <= j ==> s.dataLen * s.blocks + (j - s.shortBlocks) < s.BlockStart(s.blocks)
  {
    assert (s.dataLen + 1 + i) * s.blocks == s.dataLen * s.blocks + s.blocks + i * s.blocks;
    assert (s.dataLen + 1 + s.eccLen) * s.blocks == s.dataLen * s.blocks + s.blocks + s.eccLen * s.blocks;
    assert s.blocks * s.dataLen == s.dataLen * s.blocks;
  }
}
