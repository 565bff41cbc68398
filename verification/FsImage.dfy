/** Disk images: a free map that marks given blocks, and the empty file system that mkfs
    lays out, which meets every invariant the file system keeps. */
module FsImage {
  import opened Blocks
  import opened FsLayout
  import opened FsOwnership

  /** One bit of the free map is set or cleared. */
  function WithBit(g: Geometry, blocks: seq<Block>, b: nat, on: bool): (r: seq<Block>)
    requires GeometryOk(g, |blocks|) && b < g.size
    ensures |r| == |blocks| && forall c: nat :: c < |r| && !(g.bmapstart <= c < g.datastart) ==> r[c] == blocks[c]
  {
    var m := BBlock(g, b);
    blocks[m := PutBit(blocks[m], b % BPB, on)]
  }

  lemma MarkOne(g: Geometry, blocks: seq<Block>, b: nat, on: bool)
    requires GeometryOk(g, |blocks|) && b < g.size
    ensures forall c: nat :: c < g.size ==> Bit(g, WithBit(g, blocks, b, on), c) == if c == b then on else Bit(g, blocks, c)
  {
    hide Bit;
    forall c: nat | c < g.size ensures Bit(g, WithBit(g, blocks, b, on), c) == if c == b then on else Bit(g, blocks, c) {
      FlipBit(g, blocks, b, on, c);
    }
  }

  /** The disk with the free-map bits of blocks 0..n set exactly for the used blocks. */
  function Marked(g: Geometry, blocks: seq<Block>, used: nat -> bool, n: nat): (r: seq<Block>)
    requires GeometryOk(g, |blocks|) && n <= g.size
    ensures |r| == |blocks| && (forall b: nat :: b < n ==> Bit(g, r, b) == used(b))
    ensures forall c: nat :: c < |r| && !(g.bmapstart <= c < g.datastart) ==> r[c] == blocks[c]
  {
    if n == 0 then blocks else
      MarkOne(g, Marked(g, blocks, used, n - 1), n - 1, used(n - 1));
      WithBit(g, Marked(g, blocks, used, n - 1), n - 1, used(n - 1))
  }

  const ZeroInode: Dinode := Dinode(0, 0, 0, 0, 0, seq(NDIRECT + 1, _ => 0))

  lemma ZeroInodeDecodes(slot: nat)
    requires slot < IPB
    ensures DecodeInode(ZeroBlock, slot) == ZeroInode
  {
    var ws := SlotWords(ZeroBlock, slot);
    forall k: nat | k < 16 ensures ws[k] == 0 {
      assert WordAt(ZeroBlock, slot * 16 + k) == 0;
    }
  }

  /** An all-zero disk whose free map marks the metadata. */
  function Formatted(g: Geometry, nblocks: nat): (r: seq<Block>)
    requires GeometryOk(g, nblocks)
    ensures |r| == nblocks
  {
    Marked(g, seq(nblocks, _ => ZeroBlock), c => c < g.datastart, g.size)
  }

  /** It holds no file and no reference, and meets the ownership invariant with nothing
      owned; every on-disk inode is free. */
  lemma FormattedOwn(g: Geometry, nblocks: nat)
    requires GeometryOk(g, nblocks)
    ensures Own(g, Formatted(g, nblocks), seq(g.ninodes, _ => ZeroInode), map[], {})
    ensures forall i: nat :: i < g.ninodes ==> DecodeInode(Formatted(g, nblocks)[IBlock(g, i)], i % IPB) == ZeroInode
  {
    forall i: nat | i < g.ninodes
      ensures DecodeInode(Formatted(g, nblocks)[IBlock(g, i)], i % IPB) == ZeroInode
    {
      ZeroInodeDecodes(i % IPB);
    }
  }

  /** Writing inode n into its place leaves the ones before it alone. */
  lemma PlaceOne(g: Geometry, blocks: seq<Block>, eff: seq<Dinode>, n: nat)
    requires GeometryOk(g, |blocks|) && InodesOk(g, eff) && n < g.ninodes
    requires forall i: nat {:trigger IBlock(g, i)} :: i < n ==> DecodeInode(blocks[IBlock(g, i)], i % IPB) == eff[i]
    ensures var ib := IBlock(g, n); var r := blocks[ib := EncodeInode(blocks[ib], n % IPB, eff[n])];
            forall i: nat {:trigger IBlock(g, i)} :: i <= n ==> DecodeInode(r[IBlock(g, i)], i % IPB) == eff[i]
  {
    hide DecodeInode, EncodeInode;
    var ib := IBlock(g, n);
    forall i: nat | i <= n && IBlock(g, i) == ib
      ensures DecodeInode(EncodeInode(blocks[ib], n % IPB, eff[n]), i % IPB) == eff[i]
    {
      InodeRoundTrip(blocks[ib], n % IPB, eff[n], i % IPB);
      assert i == (i / IPB) * IPB + i % IPB && n == (n / IPB) * IPB + n % IPB;
    }
  }

  /** The disk with the first n of the given inodes in their places. */
  function WithInodes(g: Geometry, blocks: seq<Block>, eff: seq<Dinode>, n: nat): (r: seq<Block>)
    requires GeometryOk(g, |blocks|) && InodesOk(g, eff) && n <= g.ninodes
    ensures |r| == |blocks| && (forall i: nat {:trigger IBlock(g, i)} :: i < n ==> DecodeInode(r[IBlock(g, i)], i % IPB) == eff[i])
    ensures forall c: nat :: c < |r| && !(g.inodestart <= c < g.bmapstart) ==> r[c] == blocks[c]
  {
    if n == 0 then blocks else
      var r, ib := WithInodes(g, blocks, eff, n - 1), IBlock(g, n - 1);
      PlaceOne(g, r, eff, n - 1);
      r[ib := EncodeInode(r[ib], (n - 1) % IPB, eff[n - 1])]
  }
}
