/** A consistent disk that makes a write as expensive for the log as can be: file 0 has no
    indirect block, and the other files own every other data block but a few free ones, each
    of which lies under a free-map block of its own. */
module CrowdedDisk {
  import opened Blocks
  import opened FsLayout
  import opened FsOwnership
  import opened FsImage
  import opened LogBudget

  /** Number of free blocks; of other files between two free blocks; of other files. */
  const FREE: nat := 300
  const RUN: nat := 342
  const OTHERS: nat := 102600
  /** Blocks from one free block to the next: more than a free-map block covers. */
  const STRIDE: nat := 4104

  /** The layout for a file 0 of k blocks. */
  function Crowded(k: nat): (g: Geometry)
    requires k <= NDIRECT
    ensures GeometryOk(g, g.size)
  {
    Geometry(13132 + k + NDIRECT * OTHERS, OTHERS + 1, 2, 12828, 13132)
  }

  /** Block c is free: the last direct block of every RUN-th of the other files, from base on. */
  predicate FreeAt(base: nat, c: nat) { c >= base && (c - base) % STRIDE == NDIRECT - 1 }

  /** The q-th of the other files has the next NDIRECT blocks, as far as they are not free. */
  function OtherInode(base: nat, q: nat): (d: Dinode)
    requires q < OTHERS && base < 20000
    ensures DinodeOk(d) && d.addrs[NDIRECT] == 0
    ensures forall s: nat :: s < NDIRECT ==>
              d.addrs[s] == if FreeAt(base, base + NDIRECT * q + s) then 0 else base + NDIRECT * q + s
  {
    Dinode(2, 0, 0, 1, if q % RUN == 0 then (NDIRECT - 1) * BSIZE else NDIRECT * BSIZE,
           seq<Word>(NDIRECT + 1, s requires 0 <= s <= NDIRECT =>
             if s == NDIRECT || FreeAt(base, base + NDIRECT * q + s) then 0 else base + NDIRECT * q + s))
  }

  /** The inode of a file of the given size in the first data blocks. */
  function DirectInode(first: nat, size: Word): (d: Dinode)
    requires size <= NDIRECT * BSIZE && first + NDIRECT < TWO32
    ensures DinodeOk(d) && d.size == size
    ensures forall s: nat :: s <= NDIRECT ==> d.addrs[s] == if s < Have(size) then first + s else 0
  {
    Dinode(2, 0, 0, 1, size, seq<Word>(NDIRECT + 1, s requires 0 <= s <= NDIRECT => if s < Have(size) then first + s else 0))
  }

  function Inodes(size: Word): (eff: seq<Dinode>)
    requires size <= NDIRECT * BSIZE
    ensures InodesOk(Crowded(Have(size)), eff) && eff[0] == DirectInode(13132, size)
    ensures forall i: nat :: 1 <= i <= OTHERS ==> eff[i] == OtherInode(13132 + Have(size), i - 1)
  {
    seq(OTHERS + 1, i requires 0 <= i <= OTHERS => if i == 0 then DirectInode(13132, size) else OtherInode(13132 + Have(size), i - 1))
  }

  /** The inodes in their places on a zeroed disk. */
  function FilledIn(size: Word): (r: seq<Block>)
    requires size <= NDIRECT * BSIZE
    ensures var g := Crowded(Have(size));
            |r| == g.size && forall i: nat {:trigger IBlock(g, i)} :: i < g.ninodes ==> DecodeInode(r[IBlock(g, i)], i % IPB) == Inodes(size)[i]
  {
    var g := Crowded(Have(size));
    WithInodes(g, seq(g.size, _ => ZeroBlock), Inodes(size), g.ninodes)
  }

  /** The disk: the inodes in their places, and a free map that marks all but the free blocks. */
  function Image(size: Word): (r: seq<Block>)
    requires size <= NDIRECT * BSIZE
    ensures var g := Crowded(Have(size));
            && |r| == g.size && (forall b: nat :: b < g.size ==> Bit(g, r, b) == !FreeAt(g.datastart + Have(size), b))
            && (forall i: nat {:trigger IBlock(g, i)} :: i < g.ninodes ==> DecodeInode(r[IBlock(g, i)], i % IPB) == Inodes(size)[i])
  {
    var g := Crowded(Have(size));
    Marked(g, FilledIn(size), (c: nat) => !FreeAt(g.datastart + Have(size), c), g.size)
  }

  /** Which file and slot a block belongs to. */
  function OwnerOf(g: Geometry, base: nat, b: nat): (nat, nat)
    requires g.datastart <= b && g.datastart <= base
  {
    if b < base then (0, b - g.datastart) else (1 + (b - base) / NDIRECT, (b - base) % NDIRECT)
  }

  ghost function Owners(size: Word): (owner: map<nat, (nat, nat)>)
    requires size <= NDIRECT * BSIZE
    ensures var g, base := Crowded(Have(size)), 13132 + Have(size);
            && (forall b: nat :: b in owner <==> g.datastart <= b < g.size && !FreeAt(base, b))
            && (forall b: nat :: b in owner ==> owner[b] == OwnerOf(g, base, b))
  {
    var g, base := Crowded(Have(size)), 13132 + Have(size);
    map b: nat | g.datastart <= b < g.size && !FreeAt(base, b) :: OwnerOf(g, base, b)
  }

  /** References are direct ones only. */
  lemma CrowdedRef(blocks: seq<Block>, size: Word, i: nat, s: nat)
    requires size <= NDIRECT * BSIZE && i <= OTHERS && s < SLOTS
    ensures var base := 13132 + Have(size); var b := base + NDIRECT * (i - 1) + s;
            RefBlock(blocks, Inodes(size)[i], s) ==
            if s >= NDIRECT then 0
            else if i == 0 then (if s < Have(size) then 13132 + s else 0)
            else if FreeAt(base, b) then 0 else b
  {
  }

  lemma OwnerFits(size: Word, b: nat)
    requires size <= NDIRECT * BSIZE && b in Owners(size)
    ensures var (i, s) := Owners(size)[b]; i <= OTHERS && s < NDIRECT
    ensures var (i, s) := Owners(size)[b]; forall blocks :: RefBlock(blocks, Inodes(size)[i], s) == b
  {
    var (i, s) := Owners(size)[b];
    forall blocks ensures RefBlock(blocks, Inodes(size)[i], s) == b {
      CrowdedRef(blocks, size, i, s);
    }
  }

  lemma RefOwned(blocks: seq<Block>, size: Word, i: nat, s: nat)
    requires size <= NDIRECT * BSIZE && i <= OTHERS && s < SLOTS && RefBlock(blocks, Inodes(size)[i], s) != 0
    ensures var b := RefBlock(blocks, Inodes(size)[i], s); b in Owners(size) && Owners(size)[b] == (i, s)
  {
    CrowdedRef(blocks, size, i, s);
  }

  /** Every block in use is metadata or owned: the disk is consistent. */
  lemma CrowdedOwn(size: Word)
    requires size <= NDIRECT * BSIZE
    ensures Own(Crowded(Have(size)), Image(size), Inodes(size), Owners(size), {})
  {
    hide Image, Inodes, Owners;
    var g, blocks, eff, owner := Crowded(Have(size)), Image(size), Inodes(size), Owners(size);
    forall b <- owner ensures g.datastart <= b < g.size && owner[b].0 < |eff| && owner[b].1 < SLOTS
                              && RefBlock(blocks, eff[owner[b].0], owner[b].1) == b {
      OwnerFits(size, b);
    }
    forall i: nat, s: nat | i < |eff| && s < SLOTS && RefBlock(blocks, eff[i], s) != 0
      ensures RefBlock(blocks, eff[i], s) in owner && owner[RefBlock(blocks, eff[i], s)] == (i, s)
    {
      RefOwned(blocks, size, i, s);
    }
  }

  /** Among the blocks of the q-th other file only the last can be free. */
  lemma FreeSlot(base: nat, q: nat, s: nat)
    requires s < NDIRECT
    ensures FreeAt(base, base + NDIRECT * q + s) <==> s == NDIRECT - 1 && q % RUN == 0
  {
    var a, r := q / RUN, q % RUN;
    assert NDIRECT * q + s == STRIDE * a + (NDIRECT * r + s) && NDIRECT * r + s < STRIDE;
  }

  /** No file has a hole. */
  lemma CrowdedDense(size: Word, i: nat)
    requires size <= NDIRECT * BSIZE && i <= OTHERS
    ensures Dense(Image(size), Inodes(size)[i])
  {
    hide Image, FreeAt;
    forall bn: nat | bn < MAXFILE && bn * BSIZE < Inodes(size)[i].size ensures FileBlock(Image(size), Inodes(size)[i], bn) != 0 {
      CrowdedRef(Image(size), size, i, bn);
      if i > 0 {
        FreeSlot(13132 + Have(size), i - 1, bn);
      }
    }
  }

  /** Two free blocks are more than a free-map block's worth apart. */
  lemma FreeApart(base: nat, b: nat, c: nat)
    requires b < c && FreeAt(base, b) && FreeAt(base, c)
    ensures c - b >= STRIDE
  {
  }

  lemma CrowdedScattered(size: Word)
    requires size <= NDIRECT * BSIZE
    ensures Scattered(Crowded(Have(size)), Image(size))
  {
    hide Image, FreeAt;
    var g, base := Crowded(Have(size)), 13132 + Have(size);
    forall b: nat, c: nat | b < c < g.size && !Bit(g, Image(size), b) && !Bit(g, Image(size), c)
      ensures BBlock(g, b) != BBlock(g, c)
    {
      FreeApart(base, b, c);
    }
  }

  /** The first n free blocks. */
  ghost function FreeBlocks(base: nat, n: nat): (r: set<nat>)
    ensures |r| == n && forall c <- r :: FreeAt(base, c) && c < base + STRIDE * n
  {
    if n == 0 then {} else FreeBlocks(base, n - 1) + {base + STRIDE * (n - 1) + NDIRECT - 1}
  }

  /** Extending file 0 past its direct blocks is the worst case, with FREE blocks free. */
  lemma CrowdedWorst(size: Word, n: nat)
    requires size <= NDIRECT * BSIZE < size + n <= MAXFILE * BSIZE
    ensures var g, blocks := Crowded(Have(size)), Image(size);
            && WorstCase(g, blocks, Inodes(size)[0], size, n)
            && |FreeBlocks(g.datastart + Have(size), FREE)| == FREE
            && forall c <- FreeBlocks(g.datastart + Have(size), FREE) :: g.datastart <= c < g.size && !Bit(g, blocks, c)
  {
    hide Image, FreeBlocks, Scattered;
    CrowdedScattered(size);
    forall s: nat | s < SLOTS ensures RefBlock(Image(size), Inodes(size)[0], s) == if s < Have(size) then 13132 + s else 0 {
      CrowdedRef(Image(size), size, 0, s);
    }
  }
}
