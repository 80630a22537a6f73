/** Disk blocks: 512 bytes, also read and written as 128 little-endian 32-bit words. */
module Blocks {
  const BSIZE: nat := 512
  const WORDS: nat := 128
  const UINT_LIMIT: nat := 0x1_0000_0000

  type Byte = x: int | 0 <= x < 256
  type Block = b: seq<Byte> | |b| == BSIZE witness seq(BSIZE, i => 0)

  /** A disk is its blocks in order; a disk state changes one whole block at a time. */
  type Disk = seq<Block>

  function ZeroBlock(): (b: Block)
  {
    seq(BSIZE, i => 0)
  }

  /** The i-th 32-bit word of a block. */
  function GetWord(b: Block, i: nat): (w: nat)
    requires i < WORDS
    ensures w < UINT_LIMIT
  {
    var b0: int, b1: int, b2: int, b3: int := b[4 * i], b[4 * i + 1], b[4 * i + 2], b[4 * i + 3];
    b0 + 0x100 * b1 + 0x1_0000 * b2 + 0x100_0000 * b3
  }

  /** The block with its i-th word overwritten. */
  function PutWord(b: Block, i: nat, w: nat): (r: Block)
    requires i < WORDS && w < UINT_LIMIT
  {
    b[4 * i := w % 0x100][4 * i + 1 := w / 0x100 % 0x100]
     [4 * i + 2 := w / 0x1_0000 % 0x100][4 * i + 3 := w / 0x100_0000]
  }

  lemma WordBytes(w: nat)
    requires w < UINT_LIMIT
    ensures w / 0x100_0000 < 0x100
    ensures w == w % 0x100 + 0x100 * (w / 0x100 % 0x100) + 0x1_0000 * (w / 0x1_0000 % 0x100)
                 + 0x100_0000 * (w / 0x100_0000)
  {
    var q := w / 0x100;
    assert w == 0x100 * q + w % 0x100;
    assert q == 0x100 * (q / 0x100) + q % 0x100;
    assert w / 0x1_0000 == q / 0x100;
    var p := w / 0x1_0000;
    assert p == 0x100 * (p / 0x100) + p % 0x100;
    assert w / 0x100_0000 == p / 0x100;
  }

  /** Writing one word changes that word and no other. */
  lemma GetPutWord(b: Block, i: nat, w: nat, j: nat)
    requires i < WORDS && j < WORDS && w < UINT_LIMIT
    ensures GetWord(PutWord(b, i, w), j) == if i == j then w else GetWord(b, j)
  {
    WordBytes(w);
    var r := PutWord(b, i, w);
    if i != j {
      assert forall k :: 0 <= k < BSIZE && !(4 * i <= k < 4 * i + 4) ==> r[k] == b[k];
    }
  }

  lemma ZeroWord(i: nat)
    requires i < WORDS
    ensures GetWord(ZeroBlock(), i) == 0
  {
  }
}
