/** On-disk layout of fs.h: free-map bits, inodes packed into blocks, and the block
    numbers an inode refers to directly or through its indirect block. */
module FsLayout {
  import opened Blocks

  const NDIRECT: nat := 12
  const NINDIRECT: nat := 128
  const MAXFILE: nat := 140
  const IPB: nat := 8
  const BPB: nat := 4096
  /** Places where an inode can refer to a block: 0..11 direct, 12 the indirect block,
      13 + j the j-th entry of the indirect block. */
  const SLOTS: nat := 141

  /** The superblock; datastart is the first block after the free map. */
  datatype Geometry = Geometry(size: nat, ninodes: nat, inodestart: nat, bmapstart: nat, datastart: nat)

  predicate GeometryOk(g: Geometry, nblocks: nat) {
    && 2 <= g.inodestart && 1 <= g.ninodes
    && g.inodestart + (g.ninodes - 1) / IPB < g.bmapstart
    && 1 <= g.size && g.bmapstart + (g.size - 1) / BPB < g.datastart
    && g.datastart <= g.size <= nblocks <= TWO32
  }

  function IBlock(g: Geometry, inum: nat): (b: nat)
    ensures g.inodestart <= b
    ensures inum < g.ninodes && g.inodestart + (g.ninodes - 1) / IPB < g.bmapstart ==> b < g.bmapstart
  {
    inum / IPB + g.inodestart
  }

  function BBlock(g: Geometry, b: nat): (m: nat)
    ensures g.bmapstart <= m
    ensures b < g.size && g.bmapstart + (g.size - 1) / BPB < g.datastart ==> m < g.datastart
  {
    b / BPB + g.bmapstart
  }

  // ---------------------------------------------------------------- bits

  /** x & (1 << k), x | (1 << k) and x & ~(1 << k). */
  predicate NatBit(x: nat, k: nat) {
    if k == 0 then x % 2 == 1 else NatBit(x / 2, k - 1)
  }

  function NatPut(x: nat, k: nat, on: bool): (r: nat) {
    if k == 0 then x - x % 2 + (if on then 1 else 0) else x % 2 + 2 * NatPut(x / 2, k - 1, on)
  }

  function Pow2(m: nat): (p: nat) { if m == 0 then 1 else 2 * Pow2(m - 1) }

  lemma {:induction false} NatPutBit(x: nat, k: nat, on: bool, j: nat)
    ensures NatBit(NatPut(x, k, on), j) == if j == k then on else NatBit(x, j)
    decreases k
  {
    if k > 0 && j > 0 { NatPutBit(x / 2, k - 1, on, j - 1); }
  }

  lemma {:induction false} NatPutBound(x: nat, k: nat, on: bool, m: nat)
    requires x < Pow2(m) && k < m
    ensures NatPut(x, k, on) < Pow2(m)
    decreases m
  {
    var p := Pow2(m - 1);
    assert x < 2 * p;
    if k > 0 {
      NatPutBound(x / 2, k - 1, on, m - 1);
      assert NatPut(x, k, on) == x % 2 + 2 * NatPut(x / 2, k - 1, on) <= 1 + 2 * (p - 1);
    } else {
      assert x - x % 2 <= 2 * p - 2;
    }
  }

  function BytePut(x: Byte, k: nat, on: bool): (r: Byte)
    requires k < 8
    ensures forall j: nat :: NatBit(r, j) == if j == k then on else NatBit(x, j)
  {
    assert Pow2(8) == 256 by { assert Pow2(4) == 16; }
    NatPutBound(x, k, on, 8);
    assert forall j: nat :: NatBit(NatPut(x, k, on), j) == if j == k then on else NatBit(x, j) by {
      forall j: nat { NatPutBit(x, k, on, j); }
    }
    NatPut(x, k, on)
  }

  predicate BitAt(b: Block, bi: nat)
    requires bi < BPB
  {
    NatBit(b[bi / 8], bi % 8)
  }

  function PutBit(b: Block, bi: nat, on: bool): (r: Block)
    requires bi < BPB
    ensures forall j :: 0 <= j < BPB ==> (BitAt(r, j) == if j == bi then on else BitAt(b, j))
  {
    b[bi / 8 := BytePut(b[bi / 8], bi % 8, on)]
  }

  // ---------------------------------------------------------------- inodes

  type Short = x: int | 0 <= x < 0x1_0000

  /** struct dinode, and the part of struct inode that mirrors it. */
  datatype Dinode = Dinode(typ: Short, major: Short, minor: Short, nlink: Short, size: Word, addrs: seq<Word>)

  predicate DinodeOk(d: Dinode) { |d.addrs| == NDIRECT + 1 }

  /** The 16 words of a dinode on disk, and back. */
  function DinodeWord(d: Dinode, k: nat): (w: Word)
    requires DinodeOk(d) && k < 16
  {
    if k == 0 then d.typ + 0x1_0000 * d.major
    else if k == 1 then d.minor + 0x1_0000 * d.nlink
    else if k == 2 then d.size
    else d.addrs[k - 3]
  }

  function ToWords(d: Dinode): (ws: seq<Word>)
    requires DinodeOk(d)
    ensures |ws| == 16
  {
    seq<Word>(16, k requires 0 <= k < 16 => DinodeWord(d, k))
  }

  function FromWords(ws: seq<Word>): (d: Dinode)
    requires |ws| == 16
    ensures DinodeOk(d)
  {
    Dinode(ws[0] % 0x1_0000, ws[0] / 0x1_0000, ws[1] % 0x1_0000, ws[1] / 0x1_0000, ws[2], ws[3..])
  }

  lemma WordsRoundTrip(d: Dinode)
    requires DinodeOk(d)
    ensures FromWords(ToWords(d)) == d
  {
  }

  function SlotWords(b: Block, slot: nat): (ws: seq<Word>)
    requires slot < IPB
    ensures |ws| == 16
  {
    seq<Word>(16, k requires 0 <= k < 16 => WordAt(b, 16 * slot + k))
  }

  function DecodeInode(b: Block, slot: nat): (d: Dinode)
    requires slot < IPB
    ensures DinodeOk(d)
  {
    FromWords(SlotWords(b, slot))
  }

  function EncodeUpTo(b: Block, slot: nat, d: Dinode, k: nat): (r: Block)
    requires slot < IPB && DinodeOk(d) && k <= 16
  {
    if k == 0 then b else PutWord(EncodeUpTo(b, slot, d, k - 1), 16 * slot + k - 1, DinodeWord(d, k - 1))
  }

  /** iupdate's stores into the inode block. */
  function EncodeInode(b: Block, slot: nat, d: Dinode): (r: Block)
    requires slot < IPB && DinodeOk(d)
  {
    EncodeUpTo(b, slot, d, 16)
  }

  lemma {:induction false} EncodeWords(b: Block, slot: nat, d: Dinode, k: nat, j: nat)
    requires slot < IPB && DinodeOk(d) && k <= 16 && j < WORDS
    ensures WordAt(EncodeUpTo(b, slot, d, k), j) ==
            if 16 * slot <= j < 16 * slot + k then DinodeWord(d, j - 16 * slot) else WordAt(b, j)
  {
    if k > 0 {
      EncodeWords(b, slot, d, k - 1, j);
      WordAtPut(EncodeUpTo(b, slot, d, k - 1), 16 * slot + k - 1, DinodeWord(d, k - 1), j);
    }
  }

  lemma SlotWord(b: Block, slot: nat, d: Dinode, other: nat, k: nat)
    requires slot < IPB && other < IPB && DinodeOk(d) && k < 16
    ensures WordAt(EncodeInode(b, slot, d), 16 * other + k) == if other == slot then DinodeWord(d, k) else WordAt(b, 16 * other + k)
  {
    hide DinodeWord, WordAt;
    EncodeWords(b, slot, d, 16, 16 * other + k);
  }

  lemma SlotRoundTrip(b: Block, slot: nat, d: Dinode, other: nat)
    requires slot < IPB && other < IPB && DinodeOk(d)
    ensures SlotWords(EncodeInode(b, slot, d), other) == if other == slot then ToWords(d) else SlotWords(b, other)
  {
    hide DinodeWord, WordAt, EncodeInode;
    var got := SlotWords(EncodeInode(b, slot, d), other);
    forall k: nat | k < 16 ensures got[k] == if other == slot then DinodeWord(d, k) else WordAt(b, 16 * other + k) {
      SlotWord(b, slot, d, other, k);
    }
    if other == slot {
      assert got == ToWords(d);
    } else {
      assert got == SlotWords(b, other);
    }
  }

  /** Reading back an inode after iupdate gives it, and leaves its neighbours alone. */
  lemma InodeRoundTrip(b: Block, slot: nat, d: Dinode, other: nat)
    requires slot < IPB && other < IPB && DinodeOk(d)
    ensures DecodeInode(EncodeInode(b, slot, d), other) == if other == slot then d else DecodeInode(b, other)
  {
    hide EncodeInode, SlotWords, ToWords;
    SlotRoundTrip(b, slot, d, other);
    WordsRoundTrip(d);
  }

  // ---------------------------------------------------------------- references

  /** The block an inode refers to at a slot, 0 for none. */
  function RefBlock(blocks: seq<Block>, d: Dinode, slot: nat): (b: nat)
    requires DinodeOk(d) && slot < SLOTS
  {
    if slot <= NDIRECT then d.addrs[slot]
    else if d.addrs[NDIRECT] == 0 || d.addrs[NDIRECT] >= |blocks| then 0
    else WordAt(blocks[d.addrs[NDIRECT]], slot - NDIRECT - 1)
  }

  function SlotOf(bn: nat): nat { if bn < NDIRECT then bn else bn + 1 }

  /** The disk block of file block bn, 0 if it has none. */
  function FileBlock(blocks: seq<Block>, d: Dinode, bn: nat): (b: nat)
    requires DinodeOk(d) && bn < MAXFILE
  {
    RefBlock(blocks, d, SlotOf(bn))
  }

  /** The byte of the file at offset x; unallocated blocks read as zeros. */
  function FileByte(blocks: seq<Block>, d: Dinode, x: nat): (c: Byte)
    requires DinodeOk(d) && x < MAXFILE * BSIZE
  {
    var b := FileBlock(blocks, d, x / BSIZE);
    if b == 0 || b >= |blocks| then 0 else blocks[b][x % BSIZE]
  }
}
