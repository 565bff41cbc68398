/** Disk blocks as the kernel sees them: BSIZE bytes, also read as little-endian
    32-bit words (log header, indirect blocks, inodes) and as bits (free map). */
module Blocks {
  const BSIZE: nat := 512
  const WORDS: nat := 128
  const TWO32: nat := 0x1_0000_0000
  /** Buffers in the block cache. */
  const NBUF: nat := 30

  type Byte = x: int | 0 <= x < 256
  type Word = x: int | 0 <= x < 0x1_0000_0000
  type Block = b: seq<Byte> | |b| == 512 witness seq(512, _ => 0)

  const ZeroBlock: Block := Zeros()

  function Zeros(): (b: Block) {
    seq(512, _ => 0)
  }

  /** The k-th 32-bit little-endian word of a block. */
  function WordAt(b: Block, k: nat): (w: Word)
    requires k < WORDS
  {
    var b0: int, b1: int, b2: int, b3: int := b[4 * k], b[4 * k + 1], b[4 * k + 2], b[4 * k + 3];
    b0 + 0x100 * b1 + 0x1_0000 * b2 + 0x100_0000 * b3
  }

  function PutWord(b: Block, k: nat, w: Word): (r: Block)
    requires k < WORDS
  {
    b[4 * k := w % 0x100][4 * k + 1 := w / 0x100 % 0x100]
    [4 * k + 2 := w / 0x100 / 0x100 % 0x100][4 * k + 3 := w / 0x100 / 0x100 / 0x100]
  }

  lemma WordAtPut(b: Block, k: nat, w: Word, j: nat)
    requires k < WORDS && j < WORDS
    ensures WordAt(PutWord(b, k, w), j) == if j == k then w else WordAt(b, j)
  {
  }

  // ---------------------------------------------------------------- lists of blocks

  ghost predicate NoDup(bs: seq<nat>) {
    forall i, j :: 0 <= i < j < |bs| ==> bs[i] != bs[j]
  }

  lemma {:induction false} NoDupCard(bs: seq<nat>, l: set<nat>)
    requires NoDup(bs) && forall i :: 0 <= i < |bs| ==> bs[i] in l
    ensures |bs| <= |l|
    decreases |bs|
  {
    if bs != [] {
      var n := |bs| - 1;
      NoDupCard(bs[..n], l - {bs[n]});
    }
  }
}
