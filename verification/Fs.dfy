/** The block and inode layers of fs.c, over the blocks that bread returns. */
module Fs {
  import opened Blocks
  import opened FsLayout
  import opened FsOwnership
  import opened FsImage

  class Fs {
    const g: Geometry
    var blocks: seq<Block>                  // contents of every block, as bread returns them
    var ino: map<nat, Dinode>               // in-memory copies of valid inodes
    ghost var logged: set<nat>              // blocks handed to log_write
    ghost var eff: seq<Dinode>              // every inode, the in-memory copy first
    ghost var owner: map<nat, (nat, nat)>
    ghost var extra: set<nat>

    ghost predicate EffOk()
      requires GeometryOk(g, |blocks|)
      reads this
    {
      && |eff| == g.ninodes
      && (forall i <- ino :: i < g.ninodes && eff[i] == ino[i])
      && Stored(g, blocks, ino.Keys, eff)
    }

    ghost predicate Valid()
      reads this
    {
      Own(g, blocks, eff, owner, extra) && EffOk()
    }

    ghost function Now(): (s: Snapshot)
      reads this
    {
      Snapshot(blocks, eff, owner, logged)
    }

    /** Every bit of the free map is set. */
    ghost predicate Full()
      reads this
    {
      GeometryOk(g, |blocks|) && forall c: nat :: c < g.size ==> Bit(g, blocks, c)
    }

    /** The on-disk copy of inode i equals the current one. */
    ghost predicate OnDisk(i: nat)
      requires Valid() && i < g.ninodes
      reads this
    {
      DecodeInode(blocks[IBlock(g, i)], i % IPB) == eff[i]
    }

    /** A freshly formatted disk: no file, no block in use but the metadata, every inode
        free on disk. */
    constructor Format(g: Geometry, nblocks: nat)
      requires GeometryOk(g, nblocks)
      ensures this.g == g && Valid() && |blocks| == nblocks && ino == map[] && owner == map[] && extra == {}
      ensures forall i: nat :: i < g.ninodes ==> OnDisk(i) && eff[i].size == 0
      ensures forall b: nat :: b < g.size ==> (Bit(g, blocks, b) <==> b < g.datastart)
    {
      this.g, blocks, ino := g, Formatted(g, nblocks), map[];
      logged, owner, extra := {}, map[], {};
      eff := seq(g.ninodes, _ => ZeroInode);
      FormattedOwn(g, nblocks);
    }

    /** A consistent disk as found at boot, with no inode in memory yet. */
    constructor Mount(g: Geometry, blocks: seq<Block>, ghost eff: seq<Dinode>, ghost owner: map<nat, (nat, nat)>)
      requires Own(g, blocks, eff, owner, {})
      requires forall i: nat {:trigger IBlock(g, i)} :: i < g.ninodes ==> DecodeInode(blocks[IBlock(g, i)], i % IPB) == eff[i]
      ensures Valid() && this.g == g && this.blocks == blocks && this.eff == eff && this.owner == owner
      ensures ino == map[] && logged == {} && extra == {}
    {
      this.g, this.blocks, ino := g, blocks, map[];
      this.eff, this.owner, logged, extra := eff, owner, {}, {};
    }

    /** ilock once it has the lock: an inode not in memory is read from disk; a free one makes
        the kernel panic. */
    method Ilock(inum: nat) returns (panicked: bool)
      requires Valid() && inum < g.ninodes
      modifies this`ino
      ensures Valid() && ino.Keys == old(ino.Keys) + {inum} && (inum !in old(ino) ==> OnDisk(inum))
      ensures panicked <==> inum !in old(ino) && eff[inum].typ == 0
    {
      panicked := false;
      if inum !in ino {
        ino := ino[inum := DecodeInode(blocks[IBlock(g, inum)], inum % IPB)];
        panicked := ino[inum].typ == 0;
      }
    }

    /** Modify a locked buffer and log_write it. */
    method LogWrite(b: nat, data: Block)
      requires b < |blocks|
      modifies this`blocks, this`logged
      ensures blocks == old(blocks)[b := data] && logged == old(logged) + {b}
      ensures Logs(old(blocks), blocks, old(logged), logged)
    {
      blocks := blocks[b := data];
      logged := logged + {b};
    }

    /** Allocate a zeroed block: the first one whose bit is clear.  Without one the
        kernel panics (ok is false). */
    method Balloc() returns (ok: bool, b: nat)
      requires Valid()
      modifies this`blocks, this`logged, this`extra
      ensures !ok ==> blocks == old(blocks) && extra == old(extra) && logged == old(logged) && Full()
      ensures ok ==>
                && g.datastart <= b < g.size && !Bit(g, old(blocks), b)
                && (forall c: nat :: c < b ==> Bit(g, old(blocks), c))
      ensures ok ==> Valid() && |blocks| == |old(blocks)| && blocks[b] == ZeroBlock
      ensures ok ==> b !in old(extra) && extra == old(extra) + {b} && b !in owner
      ensures ok ==> logged == old(logged) + {BBlock(g, b), b}
      ensures ok ==> SameRefs(old(blocks), eff, blocks) && SameFiles(g, old(blocks), eff, blocks, eff)
      ensures ok ==> forall c: nat :: c < g.bmapstart ==> blocks[c] == old(blocks)[c]
      ensures ok ==> Logs(old(blocks), blocks, old(logged), logged)
      ensures ok ==> forall c: nat :: c < |blocks| && blocks[c] != old(blocks)[c] ==> c == BBlock(g, b) || c == b
    {
      hide BitsOk, OwnedOk, RefsOk, SameRefs, SameFiles, Stored, Logs, Bit, BitAt;
      var base := 0;
      while base < g.size
        invariant base % BPB == 0 && blocks == old(blocks) && logged == old(logged) && extra == old(extra)
        invariant forall c: nat :: c < base && c < g.size ==> Bit(g, blocks, c)
      {
        var bp := blocks[BBlock(g, base)];
        var bi := 0;
        while bi < BPB && base + bi < g.size
          invariant 0 <= bi <= BPB && blocks == old(blocks) && logged == old(logged) && extra == old(extra)
          invariant forall c: nat :: c < base + bi && c < g.size ==> Bit(g, blocks, c)
        {
          if !BitAt(bp, bi) {
            b := base + bi;
            BitOf(base, bi);
            TakeBlock(b, bp);
            return true, b;
          }
          BitOf(base, bi);
          bi := bi + 1;
        }
        base := base + BPB;
      }
      ok, b := false, 0;
    }

    lemma BitOf(base: nat, bi: nat)
      requires Valid() && base % BPB == 0 && bi < BPB && base + bi < g.size
      ensures BBlock(g, base) == BBlock(g, base + bi) && BBlock(g, base) < |blocks|
      ensures Bit(g, blocks, base + bi) == BitAt(blocks[BBlock(g, base)], bi)
    {
    }

    /** balloc's found branch: mark block b in use, then bzero it. */
    method TakeBlock(b: nat, bp: Block)
      requires Valid() && b < g.size && !Bit(g, blocks, b) && bp == blocks[BBlock(g, b)]
      modifies this`blocks, this`logged, this`extra
      ensures Valid() && |blocks| == |old(blocks)| && blocks[b] == ZeroBlock
      ensures g.datastart <= b && b !in old(extra) && extra == old(extra) + {b} && b !in owner
      ensures logged == old(logged) + {BBlock(g, b), b}
      ensures SameRefs(old(blocks), eff, blocks) && SameFiles(g, old(blocks), eff, blocks, eff)
      ensures forall c: nat :: c < g.bmapstart ==> blocks[c] == old(blocks)[c]
      ensures Logs(old(blocks), blocks, old(logged), logged)
      ensures forall c: nat :: c < |blocks| && blocks[c] != old(blocks)[c] ==> c == BBlock(g, b) || c == b
    {
      hide Stored;
      ghost var b0 := blocks;
      FlipBit(g, blocks, b, true, b);
      BitmapWriteKeeps(g, blocks, eff, owner, extra, b, true, extra + {b});
      LogWrite(BBlock(g, b), PutBit(bp, b % BPB, true));
      extra := extra + {b};
      assert Own(g, blocks, eff, owner, extra);
      ZeroKeeps(g, blocks, eff, owner, extra, b, ZeroBlock);
      LogWrite(b, ZeroBlock);
      StoredKept(g, b0, blocks, ino.Keys, eff, eff);
    }

    /** Free a block nothing refers to any more.  Its bit is set, so the "freeing free
        block" panic is not reached. */
    method Bfree(b: nat) returns (panicked: bool)
      requires Own(g, blocks, eff, owner, extra) && b in extra
      modifies this`blocks, this`logged, this`extra
      ensures !panicked && Own(g, blocks, eff, owner, extra) && SameOutsideBitmap(g, old(blocks), blocks)
      ensures extra == old(extra) - {b} && logged == old(logged) + {BBlock(g, b)}
      ensures SameFiles(g, old(blocks), eff, blocks, eff)
      ensures FreedLog(g, old(blocks), blocks, old(logged), logged, {b})
    {
      var bp := blocks[BBlock(g, b)];
      assert Bit(g, blocks, b);
      if !BitAt(bp, b % BPB) {
        return true;
      }
      FlipBit(g, blocks, b, false, b);
      BitmapWriteKeeps(g, blocks, eff, owner, extra, b, false, extra - {b});
      FreedOne(g, blocks, logged, b, PutBit(bp, b % BPB, false));
      LogWrite(BBlock(g, b), PutBit(bp, b % BPB, false));
      extra := extra - {b};
      panicked := false;
    }

    /** Give slot s of the inode, a direct one or the indirect block, a fresh zeroed block. */
    method AllocAddr(inum: nat, s: nat) returns (ok: bool, addr: Word)
      requires Valid() && inum in ino && s <= NDIRECT && ino[inum].addrs[s] == 0
      modifies this
      ensures Valid() && extra == old(extra) && ino.Keys == old(ino.Keys)
      ensures ok ==> eff == old(eff)[inum := SetAddr(old(eff)[inum], s, addr)] && 0 < addr
      ensures ok ==> logged == old(logged) + {BBlock(g, addr), addr}
      ensures ok ==> BlockGot(g, old(Now()), Now(), inum, s, addr, {BBlock(g, addr)})
      ensures !ok ==> Full() && Now() == old(Now())
    {
      hide BitsOk, OwnedOk, RefsOk, Grown, SameRefs, SameFiles, Full, Logs, Stored, Grows, BlockGot;
      ghost var b0, e0, s0 := blocks, eff, Now();
      var b;
      ok, b := Balloc();
      addr := 0;
      if ok {
        addr := b;
        ghost var b1 := blocks;
        GrownByAlloc(g, b0, b1, e0, inum);
        AttachKeeps(g, blocks, eff, owner, extra, inum, s, addr);
        ghost var keys := ino.Keys;
        ino := ino[inum := SetAddr(ino[inum], s, addr)];
        assert ino.Keys == keys;
        eff := eff[inum := SetAddr(eff[inum], s, addr)];
        owner, extra := owner[addr := (inum, s)], extra - {addr};
        StoredKept(g, b1, blocks, ino.Keys, e0, eff);
        GrownTrans(g, b0, e0, b1, e0, blocks, eff, inum);
        MapInRange(g, blocks, addr);
        GrowsBlock(g, s0, Now(), inum, s, addr);
        GotAddr(g, s0, Now(), inum, s, addr);
      }
    }

    /** Give entry j of the indirect block a fresh zeroed block, and log the indirect block. */
    method AllocEntry(inum: nat, j: nat) returns (ok: bool, addr: nat)
      requires Valid() && inum in ino && j < NINDIRECT && ino[inum].addrs[NDIRECT] != 0
      requires RefBlock(blocks, eff[inum], NDIRECT + 1 + j) == 0
      modifies this
      ensures Valid() && extra == old(extra) && ino == old(ino) && eff == old(eff)
      ensures ok ==> logged == old(logged) + {BBlock(g, addr), addr, eff[inum].addrs[NDIRECT]}
      ensures ok ==> BlockGot(g, old(Now()), Now(), inum, NDIRECT + 1 + j, addr, {BBlock(g, addr)})
      ensures !ok ==> Full() && Now() == old(Now())
    {
      hide BitsOk, OwnedOk, RefsOk, Grown, SameRefs, SameFiles, Full, Stored, Grows, Logs, BlockGot;
      ghost var b0, e0, s0 := blocks, eff, Now();
      var ind := ino[inum].addrs[NDIRECT];
      RefOwned(g, blocks, eff, owner, extra, inum, NDIRECT);
      RefInRange(g, blocks, eff, owner, extra, inum, NDIRECT);
      ok, addr := Balloc();
      if ok {
        ghost var b1, l1 := blocks, logged;
        GrownByAlloc(g, b0, b1, e0, inum);
        RefsAlike(b0, e0, b1, inum, NDIRECT + 1 + j);
        AttachEntryKeeps(g, blocks, eff, owner, extra, inum, j, addr);
        LogWrite(ind, PutWord(blocks[ind], j, addr));
        owner, extra := owner[addr := (inum, NDIRECT + 1 + j)], extra - {addr};
        MapInRange(g, blocks, addr);
        GrowsEntry(g, s0, b1, Now(), inum, NDIRECT + 1 + j, addr, ind, blocks[ind]);
        LogsTrans(b0, b1, blocks, s0.logged, l1, logged);
        StoredKept(g, b1, blocks, ino.Keys, eff, eff);
        GrownTrans(g, b0, e0, b1, e0, blocks, eff, inum);
        GotEntry(g, s0, Now(), inum, j, addr);
      }
    }

    /** Where the file's indirect block is; a file without one gets one. */
    method IndirectBlock(inum: nat) returns (ok: bool, ind: nat, ghost maps: set<nat>)
      requires Valid() && inum in ino
      modifies this
      ensures Valid() && extra == old(extra) && ino.Keys == old(ino.Keys)
      ensures ok ==> 0 < ind == eff[inum].addrs[NDIRECT] < |blocks| && BlockGot(g, old(Now()), Now(), inum, NDIRECT, ind, maps)
      ensures old(eff)[inum].addrs[NDIRECT] != 0 ==> ok && Now() == old(Now()) && ino == old(ino) && maps == {}
      ensures !ok ==> Full() && Now() == old(Now())
    {
      hide BitsOk, OwnedOk, RefsOk, Full, Stored, BlockGot;
      maps := {};
      ok := true;
      ind := ino[inum].addrs[NDIRECT];
      if ind == 0 {
        ok, ind := AllocAddr(inum, NDIRECT);
        maps := {BBlock(g, ind)};
      } else {
        GotSame(g, Now(), inum, NDIRECT);
      }
      if ok {
        RefInRange(g, blocks, eff, owner, extra, inum, NDIRECT);
      }
    }

    /** bmap's indirect half: make sure the indirect block exists, then entry k. */
    method BmapIndirect(inum: nat, k: nat) returns (ok: bool, addr: nat, ghost maps: set<nat>)
      requires Valid() && inum in ino && k < NINDIRECT
      modifies this
      ensures Valid() && extra == old(extra) && ino.Keys == old(ino.Keys)
      ensures ok ==> BlockGot(g, old(Now()), Now(), inum, NDIRECT + 1 + k, addr, maps) && eff[inum].addrs[NDIRECT] != 0
      ensures RefBlock(old(blocks), old(eff)[inum], NDIRECT + 1 + k) != 0 ==> ok && Now() == old(Now()) && ino == old(ino)
      ensures !ok ==> Full() && Stuck(old(Now()), Now(), inum, maps) && Grows(g, old(Now()), Now(), inum)
    {
      hide BitsOk, OwnedOk, RefsOk, Full, Stored, Stuck, Grows, BlockGot;
      ghost var s0 := Now();
      StuckSame(s0, inum);
      GrowsSame(g, s0, s0, inum);
      var ind;
      ok, ind, maps := IndirectBlock(inum);
      if !ok {
        return false, 0, {};
      }
      ghost var s1 := Now();
      StuckIndirect(g, s0, s1, inum, ind, maps);
      GotGrows(g, s0, s1, inum, NDIRECT, ind, maps);
      addr := WordAt(blocks[ind], k);
      if addr == 0 {
        ok, addr := AllocEntry(inum, k);
        if ok {
          GotBoth(g, s0, s1, Now(), inum, k, ind, addr, maps, {BBlock(g, addr)});
          maps := maps + {BBlock(g, addr)};
        }
      } else {
        GotThere(g, s0, s1, inum, k, ind, maps);
      }
    }

    /** The disk block of file block bn, allocating it (and the indirect block) if need
        be.  A block that exists already is returned without any change. */
    method Bmap(inum: nat, bn: nat) returns (ok: bool, addr: nat, ghost maps: set<nat>)
      requires Valid() && inum in ino
      modifies this
      ensures bn >= MAXFILE ==> !ok
      ensures Valid() && extra == old(extra) && ino.Keys == old(ino.Keys)
      ensures ok ==> BlockGot(g, old(Now()), Now(), inum, SlotOf(bn), addr, maps)
      ensures bn < MAXFILE && FileBlock(old(blocks), old(eff)[inum], bn) != 0 ==> ok && Now() == old(Now()) && ino == old(ino)
      ensures !ok ==> (bn >= MAXFILE || Full()) && Stuck(old(Now()), Now(), inum, maps) && Grows(g, old(Now()), Now(), inum)
    {
      hide BitsOk, OwnedOk, RefsOk, Full, Stored, Stuck, Grows, BlockGot;
      GrowsSame(g, Now(), Now(), inum);
      StuckSame(Now(), inum);
      maps := {};
      if bn < NDIRECT {
        addr := ino[inum].addrs[bn];
        ok := true;
        if addr == 0 {
          ok, addr := AllocAddr(inum, bn);
          maps := if ok then {BBlock(g, addr)} else {};
        } else {
          GotSame(g, Now(), inum, bn);
        }
      } else if bn - NDIRECT < NINDIRECT {
        ok, addr, maps := BmapIndirect(inum, bn - NDIRECT);
      } else {
        ok, addr := false, 0;
      }
    }

    // -------------------------------------------------------------- inodes

    /** Copy the in-memory inode to its place in the inode block. */
    method Iupdate(inum: nat)
      requires Valid() && inum in ino
      modifies this`blocks, this`logged
      ensures Valid() && OnDisk(inum) && |blocks| == |old(blocks)| && logged == old(logged) + {IBlock(g, inum)}
      ensures SameRefs(old(blocks), eff, blocks) && SameFiles(g, old(blocks), eff, blocks, eff)
      ensures forall c: nat :: c < |blocks| && c != IBlock(g, inum) ==> blocks[c] == old(blocks)[c]
      ensures forall j: nat :: j < g.ninodes && old(OnDisk(j)) ==> OnDisk(j)
      ensures forall j: nat {:trigger IBlock(g, j)} :: j < g.ninodes && j != inum ==>
                DecodeInode(blocks[IBlock(g, j)], j % IPB) == DecodeInode(old(blocks)[IBlock(g, j)], j % IPB)
      ensures Logs(old(blocks), blocks, old(logged), logged)
    {
      var ib := IBlock(g, inum);
      assert inum / IPB <= (g.ninodes - 1) / IPB;
      var data := EncodeInode(blocks[ib], inum % IPB, ino[inum]);
      forall j: nat | j < g.ninodes && IBlock(g, j) == ib
        ensures DecodeInode(data, j % IPB) == if j == inum then ino[inum] else DecodeInode(blocks[ib], j % IPB)
      {
        InodeRoundTrip(blocks[ib], inum % IPB, ino[inum], j % IPB);
        assert j == (j / IPB) * IPB + j % IPB && inum == (inum / IPB) * IPB + inum % IPB;
      }
      WriteKeepsOwn(g, blocks, eff, owner, extra, ib, data);
      InodeBlockFiles(g, blocks, eff, owner, extra, ib, data);
      hide SameFiles, SameRefs;
      LogWrite(ib, data);
    }

    // -------------------------------------------------------------- reading and writing

    /** One iteration of readi's loop: the bytes of one block.  The block exists, so
        bmap allocates nothing. */
    method ReadPart(inum: nat, off: nat, m: nat) returns (part: seq<Byte>)
      requires Valid() && inum in ino && off + m <= MAXFILE * BSIZE && 0 < m && off % BSIZE + m <= BSIZE
      requires FileBlock(blocks, eff[inum], off / BSIZE) != 0
      modifies this
      ensures Valid() && blocks == old(blocks) && ino == old(ino) && eff == old(eff) && logged == old(logged)
      ensures extra == old(extra) && part == FileSlice(blocks, eff[inum], off, m)
    {
      var ok, addr, maps := Bmap(inum, off / BSIZE);
      assert RefBlock(blocks, eff[inum], SlotOf(off / BSIZE)) == addr;
      SliceOfBlock(blocks, eff[inum], off, m);
      part := blocks[addr][off % BSIZE..off % BSIZE + m];
    }

    /** readi's loop over the clipped range. */
    method ReadRange(inum: nat, off: nat, want: nat) returns (data: seq<Byte>)
      requires Valid() && inum in ino && Dense(blocks, eff[inum]) && off + want <= eff[inum].size
      modifies this
      ensures Valid() && blocks == old(blocks) && ino == old(ino) && eff == old(eff) && logged == old(logged)
      ensures extra == old(extra) && data == FileSlice(blocks, eff[inum], off, want)
    {
      hide BitsOk, OwnedOk, RefsOk;
      ghost var bs, d := blocks, eff[inum];
      data := [];
      var tot: nat := 0;
      while tot < want
        invariant tot <= want && data == FileSlice(bs, d, off, tot)
        invariant Valid() && blocks == bs && ino == old(ino) && eff == old(eff) && logged == old(logged)
        invariant extra == old(extra)
      {
        var m := Chunk(off, tot, want);
        assert (off + tot) / BSIZE * BSIZE <= off + tot < d.size;
        var part := ReadPart(inum, off + tot, m);
        SliceConcat(bs, d, off, tot, m);
        data := data + part;
        tot := tot + m;
      }
    }

    /** Read up to n bytes at off: an error if off is past the end or off + n wraps,
        else the slice of the file clipped to its size.  Nothing changes. */
    method Readi(inum: nat, off: Word, n: Word) returns (err: bool, data: seq<Byte>)
      requires Valid() && inum in ino && Dense(blocks, eff[inum])
      modifies this
      ensures Valid() && blocks == old(blocks) && ino == old(ino) && eff == old(eff) && logged == old(logged)
      ensures extra == old(extra)
      ensures err == (off > eff[inum].size || off + n >= TWO32)
      ensures !err ==>
                data == FileSlice(blocks, eff[inum], off, if off + n > eff[inum].size then eff[inum].size - off else n)
    {
      if off > ino[inum].size || (off + n) % TWO32 < off {
        return true, [];
      }
      var want: nat := n;
      if off + n > ino[inum].size {
        want := ino[inum].size - off;
      }
      data := ReadRange(inum, off, want);
      err := false;
    }

    /** One iteration of writei's loop: bmap the block, copy bytes lo..hi in, log it. */
    method WritePart(inum: nat, off: nat, src: seq<Byte>, lo: nat, hi: nat)
      returns (ok: bool, ghost addr: nat, ghost maps: set<nat>)
      requires Valid() && inum in ino && lo < hi <= |src| && off + hi <= MAXFILE * BSIZE
      requires (off + lo) % BSIZE + (hi - lo) <= BSIZE
      modifies this
      ensures Valid() && extra == old(extra)
      ensures ok ==> ino.Keys == old(ino.Keys) && PartDone(g, old(Now()), Now(), inum, off, src, lo, hi, addr, maps)
      ensures FileBlock(old(blocks), old(eff)[inum], (off + lo) / BSIZE) != 0 ==> ok
      ensures !ok ==> Full() && Stuck(old(Now()), Now(), inum, maps)
      ensures Grows(g, old(Now()), Now(), inum)
    {
      hide BitsOk, OwnedOk, RefsOk, Written, Full, Stored, Stuck, Grows, BlockGot, PartDone, Grown;
      ghost var s0 := Now();
      var bno;
      ok, bno, maps := Bmap(inum, (off + lo) / BSIZE);
      addr := bno;
      if ok {
        ghost var s1 := Now();
        GotSo(g, s0, s1, inum, SlotOf((off + lo) / BSIZE), bno, maps);
        RefOwned(g, blocks, eff, owner, extra, inum, SlotOf((off + lo) / BSIZE));
        PatchWrites(g, s0.blocks, s0.eff, blocks, eff, owner, extra, inum, off, src, lo, hi);
        LogWrite(bno, Patch(blocks[bno], (off + lo) % BSIZE, src[lo..hi]));
        StoredKept(g, s1.blocks, blocks, ino.Keys, eff, eff);
        GrowsWrite(g, s1, Now(), inum, bno, blocks[bno]);
        GrowsTrans(g, s0, s1, Now(), inum);
        PartGot(g, s0, s1, Now(), inum, off, src, lo, hi, bno, maps, blocks[bno]);
      }
    }

    /** The body of writei's loop, with what it does to the loop's state. */
    method WriteStep(inum: nat, off: nat, src: seq<Byte>, tot: nat, m: nat,
                     ghost s0: Snapshot, ghost data: set<nat>, ghost maps: set<nat>, ghost gained: nat)
      returns (ok: bool, ghost data': set<nat>, ghost maps': set<nat>, ghost gained': nat)
      requires Valid() && inum in ino && InodesOk(g, s0.eff)
      requires off <= s0.eff[inum].size && off + |src| <= MAXFILE * BSIZE && tot + m <= |src|
      requires 0 < m && (off + tot) % BSIZE + m <= BSIZE && (tot == 0 || (off + tot) % BSIZE == 0)
      requires Looping(g, s0, Now(), inum, off, src, tot, data, maps, gained)
      modifies this
      ensures Valid() && extra == old(extra)
      ensures ok ==> ino.Keys == old(ino.Keys) && Looping(g, s0, Now(), inum, off, src, tot + m, data', maps', gained')
      ensures !ok ==> Full() && |owner| <= |s0.owner| + Fresh(s0.eff[inum].size, off, |src|)
      ensures !ok ==> Logs(s0.blocks, blocks, s0.logged, logged) && |logged - s0.logged| <= WriteCost(s0.eff[inum].size, off, |src|)
      ensures Grows(g, old(Now()), Now(), inum)
    {
      hide BitsOk, OwnedOk, RefsOk, Looping, PartDone, Full, Fresh, Stored, Stuck, Logs, WriteCost, Grows;
      ghost var s := Now();
      ghost var addr, more;
      ok, addr, more := WritePart(inum, off, src, tot, tot + m);
      data', maps', gained' := data + {addr}, maps + more, Gained(s, Now(), inum, gained);
      if ok {
        LoopNext(g, s0, s, Now(), inum, off, src, tot, m, data, maps, gained, addr, more);
      } else {
        LoopFail(g, s0, s, Now(), inum, off, src, tot, m, data, maps, gained, more);
      }
    }

    /** writei's loop.  The blocks it logs are data blocks, free-map blocks (maps) and the
        indirect block.  If it finds no free block, it has allocated no more than the blocks
        past the old end of the file. */
    method WriteRange(inum: nat, off: nat, src: seq<Byte>) returns (ok: bool, ghost data: set<nat>, ghost maps: set<nat>)
      requires Valid() && inum in ino && Dense(blocks, eff[inum])
      requires off <= eff[inum].size && off + |src| <= MAXFILE * BSIZE
      modifies this
      ensures Valid() && extra == old(extra)
      ensures ok ==> Written(g, old(blocks), old(eff), blocks, eff, inum, off, src, 0, |src|)
      ensures ok ==> ino.Keys == old(ino.Keys) && Progress(blocks, eff[inum], old(eff)[inum], off + |src|)
      ensures ok ==> logged <= old(logged) + data + maps + IndirectOf(eff[inum])
      ensures ok ==> |data| <= Span(off, |src|)
      ensures ok ==> |maps| <= Fresh(old(eff)[inum].size, off, |src|) + 1
      ensures Logs(old(blocks), blocks, old(logged), logged)
      ensures ok ==> Touched(blocks, old(eff)[inum], eff[inum], off, |src|, logged)
      ensures !ok ==> Full() && |owner| <= |old(owner)| + Fresh(old(eff)[inum].size, off, |src|)
      ensures !ok ==> |logged - old(logged)| <= WriteCost(old(eff)[inum].size, off, |src|)
      ensures Grows(g, old(Now()), Now(), inum)
    {
      hide BitsOk, OwnedOk, RefsOk, Full, Looping, Dense, Fresh, Stored, WriteCost, Logs, Grows;
      ghost var s0 := Now();
      GrowsSame(g, s0, s0, inum);
      LoopStart(g, s0, inum, off, src);
      data, maps := {}, {};
      ghost var gained: nat := 0;
      var n, tot := |src|, 0;
      while tot < n
        invariant 0 <= tot <= n && (tot == 0 || tot == n || (off + tot) % BSIZE == 0)
        invariant Valid() && extra == old(extra) && ino.Keys == old(ino.Keys)
        invariant Looping(g, s0, Now(), inum, off, src, tot, data, maps, gained) && Grows(g, s0, Now(), inum)
      {
        var m := Chunk(off, tot, n);
        ghost var s := Now();
        ok, data, maps, gained := WriteStep(inum, off, src, tot, m, s0, data, maps, gained);
        GrowsTrans(g, s0, s, Now(), inum);
        if !ok { return; }
        tot := tot + m;
      }
      LoopDone(g, s0, Now(), inum, off, src, data, maps, gained);
      ok := true;
    }

    /** writei's last step: a file that grew gets its new size, in memory and on disk. */
    method GrowTo(inum: nat, end: nat)
      requires Valid() && inum in ino && end <= MAXFILE * BSIZE
      modifies this`ino, this`eff, this`blocks, this`logged
      ensures Valid() && ino.Keys == old(ino.Keys)
      ensures Resized(g, old(blocks), old(eff), blocks, eff, inum, if end > old(eff)[inum].size then end else old(eff)[inum].size)
      ensures logged <= old(logged) + {IBlock(g, inum)}
      ensures end > old(eff)[inum].size ==> OnDisk(inum)
      ensures end <= old(eff)[inum].size ==> blocks == old(blocks) && eff == old(eff) && ino == old(ino)
      ensures Logs(old(blocks), blocks, old(logged), logged)
      ensures end > old(eff)[inum].size ==> IBlock(g, inum) in logged
      ensures Grows(g, old(Now()), Now(), inum)
    {
      if end > ino[inum].size {
        ghost var d := eff[inum].(size := end);
        ResizeKeeps(g, blocks, eff, owner, extra, inum, d);
        ino := ino[inum := ino[inum].(size := end)];
        eff := eff[inum := d];
        Iupdate(inum);
      }
    }

    /** All of writei after its checks. */
    method WriteAll(inum: nat, off: nat, src: seq<Byte>) returns (ok: bool)
      requires Valid() && inum in ino && Dense(blocks, eff[inum])
      requires off <= eff[inum].size <= MAXFILE * BSIZE && off + |src| <= MAXFILE * BSIZE
      modifies this
      ensures Valid() && extra == old(extra) && (ok ==> ino.Keys == old(ino.Keys))
      ensures ok ==> Spliced(g, old(blocks), old(eff), blocks, eff, inum, off, src)
      ensures ok && old(OnDisk(inum)) ==> OnDisk(inum)
      ensures |logged - old(logged)| <= WriteCost(old(eff)[inum].size, off, |src|)
      ensures Logs(old(blocks), blocks, old(logged), logged)
      ensures ok ==> Touched(blocks, old(eff)[inum], eff[inum], off, |src|, logged)
      ensures ok && off + |src| > old(eff)[inum].size ==> IBlock(g, inum) in logged
      ensures !ok ==> Full() && |owner| <= |old(owner)| + Fresh(old(eff)[inum].size, off, |src|)
      ensures Grows(g, old(Now()), Now(), inum)
    {
      hide BitsOk, OwnedOk, RefsOk, Full, Written, Progress, Touched, Logs, Resized, Spliced, Dense, Span, Fresh, WriteCost, Grows;
      ghost var s0 := Now();
      ghost var data, maps;
      ok, data, maps := WriteRange(inum, off, src);
      if ok {
        ghost var s1 := Now();
        var end := off + |src|;
        InodeKept(g, s0.blocks, s0.eff, s1.blocks, s1.eff, inum, off, src);
        GrowTo(inum, end);
        GrowsTrans(g, s0, s1, Now(), inum);
        WriteiDone(g, s0, s1, Now(), inum, off, src, data, maps, if end > s1.eff[inum].size then end else s1.eff[inum].size);
      }
    }

    /** Write src at off: an error (nothing changed) if off is past the end, off + n
        wraps, or the file would exceed MAXFILE blocks; otherwise the file becomes the
        splice, all other files keep their contents, no holes appear, the on-disk inode
        still agrees with the in-memory one, and the log space used is bounded.  It fails
        for want of blocks only if no more were free than the file has new ones. */
    method Writei(inum: nat, off: Word, src: seq<Byte>) returns (err: bool, ok: bool)
      requires Valid() && inum in ino && Dense(blocks, eff[inum]) && |src| < TWO32
      modifies this
      ensures err == (off > old(eff)[inum].size || off + |src| >= TWO32 || off + |src| > MAXFILE * BSIZE)
      ensures err ==> ok && blocks == old(blocks) && ino == old(ino) && eff == old(eff) && logged == old(logged)
      ensures Valid() && extra == old(extra) && (ok ==> ino.Keys == old(ino.Keys))
      ensures ok && !err ==> Spliced(g, old(blocks), old(eff), blocks, eff, inum, off, src)
      ensures ok && old(OnDisk(inum)) ==> OnDisk(inum)
      ensures !err ==> |logged - old(logged)| <= WriteCost(old(eff)[inum].size, off, |src|)
      ensures Logs(old(blocks), blocks, old(logged), logged)
      ensures ok && !err ==> Touched(blocks, old(eff)[inum], eff[inum], off, |src|, logged)
      ensures ok && !err && off + |src| > old(eff)[inum].size ==> IBlock(g, inum) in logged
      ensures !ok ==> Full() && |owner| <= |old(owner)| + Fresh(old(eff)[inum].size, off, |src|)
      ensures Grows(g, old(Now()), Now(), inum)
    {
      var n := |src|;
      if off > ino[inum].size || (off + n) % TWO32 < off {
        return true, true;
      }
      if off + n > MAXFILE * BSIZE {
        return true, true;
      }
      assert eff[inum].size <= MAXFILE * BSIZE;
      hide BitsOk, OwnedOk, RefsOk, Full, Touched, Logs, Spliced, Dense, Span, Fresh, WriteCost;
      err := false;
      ok := WriteAll(inum, off, src);
    }

    // -------------------------------------------------------------- truncation

    /** One iteration of itrunc's first loop, for an address in use. */
    method FreeDirectAt(inum: nat, k: nat)
      requires Valid() && inum in ino && k < NDIRECT && ino[inum].addrs[k] != 0
      modifies this
      ensures Valid() && extra == old(extra) && owner == old(owner) - {old(eff)[inum].addrs[k]}
      ensures eff == old(eff)[inum := SetAddr(old(eff)[inum], k, 0)] && ino.Keys == old(ino.Keys)
      ensures SameOutsideBitmap(g, old(blocks), blocks) && SameFiles(g, old(blocks), eff, blocks, eff)
      ensures FreedLog(g, old(blocks), blocks, old(logged), logged, {old(eff)[inum].addrs[k]})
    {
      hide BitsOk, OwnedOk, RefsOk, FreedLog;
      DetachKeeps(g, blocks, eff, owner, extra, inum, k);
      var b := ino[inum].addrs[k];
      eff := eff[inum := SetAddr(eff[inum], k, 0)];
      owner, extra := owner - {b}, extra + {b};
      var panicked := Bfree(b);
      ino := ino[inum := SetAddr(ino[inum], k, 0)];
    }

    /** The body of itrunc's first loop, with what it does to the loop's state. */
    method FreeDirectStep(inum: nat, k: nat, ghost b0: seq<Block>, ghost e0: seq<Dinode>,
                          ghost own0: map<nat, (nat, nat)>, ghost ex0: set<nat>, ghost l0: set<nat>)
      requires Valid() && inum in ino && k < NDIRECT && Own(g, b0, e0, own0, ex0)
      requires Trimmed(g, b0, e0, own0, blocks, eff, owner, inum, k)
      requires FreedLog(g, b0, blocks, l0, logged, DirectBelow(own0, inum, k))
      modifies this
      ensures Valid() && extra == old(extra) && ino.Keys == old(ino.Keys)
      ensures Trimmed(g, b0, e0, own0, blocks, eff, owner, inum, k + 1)
      ensures FreedLog(g, b0, blocks, l0, logged, DirectBelow(own0, inum, k + 1))
    {
      hide FreedLog, DirectBelow;
      DirectStep(g, b0, e0, own0, ex0, inum, k);
      if ino[inum].addrs[k] != 0 {
        ghost var b1, e1, own1, l1 := blocks, eff, owner, logged;
        FreeDirectAt(inum, k);
        FreedMore(g, b0, b1, blocks, l0, l1, logged, DirectBelow(own0, inum, k), {e1[inum].addrs[k]});
        TrimNext(g, b0, e0, own0, ex0, b1, e1, own1, blocks, eff, owner, inum, k);
      } else {
        TrimSkip(g, b0, e0, own0, ex0, blocks, eff, owner, inum, k);
      }
    }

    /** itrunc's first loop: free the direct blocks. */
    method FreeDirect(inum: nat)
      requires Valid() && inum in ino
      modifies this
      ensures Valid() && extra == old(extra) && ino.Keys == old(ino.Keys)
      ensures Trimmed(g, old(blocks), old(eff), old(owner), blocks, eff, owner, inum, NDIRECT)
      ensures FreedLog(g, old(blocks), blocks, old(logged), logged, DirectBelow(old(owner), inum, NDIRECT))
    {
      hide BitsOk, OwnedOk, RefsOk, FreedLog;
      ghost var b0, e0, own0, ex0, l0 := blocks, eff, owner, extra, logged;
      assert DirectBelow(own0, inum, 0) == {};
      FreedNone(g, blocks, logged);
      var i := 0;
      while i < NDIRECT
        invariant 0 <= i <= NDIRECT && Valid() && extra == ex0 && ino.Keys == old(ino.Keys)
        invariant Trimmed(g, b0, e0, own0, blocks, eff, owner, inum, i)
        invariant FreedLog(g, b0, blocks, l0, logged, DirectBelow(own0, inum, i))
      {
        FreeDirectStep(inum, i, b0, e0, own0, ex0, l0);
        i := i + 1;
      }
    }

    /** The loop of itrunc over the indirect block's entries, which were those of inum. */
    method FreeEntries(inum: nat, a: Block, ghost b0: seq<Block>, ghost e0: seq<Dinode>, ghost own0: map<nat, (nat, nat)>, ghost ex0: set<nat>)
      requires Own(g, blocks, eff, owner, extra) && Own(g, b0, e0, own0, ex0) && inum < |e0| && e0[inum].addrs[NDIRECT] != 0
      requires e0[inum].addrs[NDIRECT] < |b0| && a == b0[e0[inum].addrs[NDIRECT]]
      requires extra == ex0 + IndirectFrom(own0, inum, 0)
      modifies this`blocks, this`logged, this`extra
      ensures Own(g, blocks, eff, owner, extra) && extra == ex0 + IndirectFrom(own0, inum, NINDIRECT)
      ensures SameOutsideBitmap(g, old(blocks), blocks) && SameFiles(g, old(blocks), eff, blocks, eff)
      ensures FreedLog(g, old(blocks), blocks, old(logged), logged, IndirectFrom(own0, inum, 0) - IndirectFrom(own0, inum, NINDIRECT))
    {
      hide BitsOk, OwnedOk, RefsOk, SameFiles, FreedLog;
      FilesSame(g, blocks, eff);
      assert IndirectFrom(own0, inum, 0) - IndirectFrom(own0, inum, 0) == {};
      FreedNone(g, blocks, logged);
      var j := 0;
      while j < NINDIRECT
        invariant 0 <= j <= NINDIRECT && Own(g, blocks, eff, owner, extra) && extra == ex0 + IndirectFrom(own0, inum, j)
        invariant SameOutsideBitmap(g, old(blocks), blocks) && SameFiles(g, old(blocks), eff, blocks, eff)
        invariant FreedLog(g, old(blocks), blocks, old(logged), logged, IndirectFrom(own0, inum, 0) - IndirectFrom(own0, inum, j))
      {
        EntryStep(g, b0, e0, own0, ex0, inum, j);
        if WordAt(a, j) != 0 {
          ghost var b1, l1 := blocks, logged;
          var panicked := Bfree(WordAt(a, j));
          FilesTrans(g, old(blocks), eff, b1, blocks);
          EntriesFreed(own0, inum, j, WordAt(a, j));
          FreedMore(g, old(blocks), b1, blocks, old(logged), l1, logged, IndirectFrom(own0, inum, 0) - IndirectFrom(own0, inum, j), {WordAt(a, j)});
        }
        j := j + 1;
      }
    }

    /** The rest of itrunc for an inode with an indirect block: free every entry in use,
        then the indirect block itself. */
    method FreeIndirect(inum: nat)
      requires Valid() && inum in ino && ino[inum].addrs[NDIRECT] != 0
      modifies this
      ensures Valid() && extra == old(extra) && owner == old(owner) - Indirect(old(owner), inum)
      ensures eff == old(eff)[inum := SetAddr(old(eff)[inum], NDIRECT, 0)] && ino.Keys == old(ino.Keys)
      ensures SameOutsideBitmap(g, old(blocks), blocks) && SameFiles(g, old(blocks), eff, blocks, eff)
      ensures FreedLog(g, old(blocks), blocks, old(logged), logged, Indirect(old(owner), inum))
    {
      hide BitsOk, OwnedOk, RefsOk, SameFiles, Stored, Indirect, IndirectFrom, FreedLog;
      ghost var b0, e0, own0, ex0, keys, l0 := blocks, eff, owner, extra, ino.Keys, logged;
      RefInRange(g, blocks, eff, owner, extra, inum, NDIRECT);
      var ind := ino[inum].addrs[NDIRECT];
      var a := blocks[ind];
      DetachIndirectKeeps(g, blocks, eff, owner, extra, inum);
      IndirectEnds(g, b0, e0, own0, ex0, inum);
      eff := eff[inum := SetAddr(eff[inum], NDIRECT, 0)];
      owner, extra := owner - Indirect(owner, inum), extra + Indirect(owner, inum);
      FreeEntries(inum, a, b0, e0, own0, ex0);
      ghost var b2, l2 := blocks, logged;
      var panicked := Bfree(ind);
      FreedMore(g, b0, b2, blocks, l0, l2, logged, Indirect(own0, inum) - {ind}, {ind});
      assert Indirect(own0, inum) - {ind} + {ind} == Indirect(own0, inum);
      FilesTrans(g, b0, eff, b2, blocks);
      ino := ino[inum := SetAddr(ino[inum], NDIRECT, 0)];
      assert ino.Keys == keys;
      StoredKept(g, b0, blocks, keys, e0, eff);
    }

    /** Both parts of itrunc that free blocks. */
    method FreeAll(inum: nat)
      requires Valid() && inum in ino
      modifies this
      ensures Valid() && extra == old(extra) && ino.Keys == old(ino.Keys)
      ensures owner == old(owner) - AllOf(old(owner), inum)
      ensures eff == old(eff)[inum := old(eff)[inum].(addrs := seq<Word>(NDIRECT + 1, _ => 0))]
      ensures SameOtherFiles(g, old(blocks), old(eff), blocks, eff, inum)
      ensures FreedLog(g, old(blocks), blocks, old(logged), logged, AllOf(old(owner), inum))
    {
      hide FreedLog, Stored;
      ghost var b0, e0, own0, ex0, l0 := blocks, eff, owner, extra, logged;
      FreeDirect(inum);
      ghost var b1, e1, own1, l1 := blocks, eff, owner, logged;
      FreedNone(g, blocks, logged);
      IndirectEnds(g, b0, e0, own0, ex0, inum);
      if ino[inum].addrs[NDIRECT] != 0 {
        FreeIndirect(inum);
      }
      TruncDone(g, b0, e0, own0, b1, e1, own1, blocks, eff, owner, inum);
      FreedMore(g, b0, b1, blocks, l0, l1, logged, DirectBelow(own0, inum, NDIRECT), Indirect(own0, inum));
    }

    /** Discard the contents of an inode.  It releases exactly the blocks the inode owned
        (so no panic), leaves every other file alone, and records the empty inode.  Nothing is
        changed without being logged: the inode's block and the free-map blocks of what it
        owned are, and no others. */
    method Itrunc(inum: nat)
      requires Valid() && inum in ino
      modifies this
      ensures Valid() && extra == old(extra) && OnDisk(inum) && ino.Keys == old(ino.Keys)
      ensures owner == old(owner) - AllOf(old(owner), inum)
      ensures eff == old(eff)[inum := old(eff)[inum].(size := 0, addrs := seq<Word>(NDIRECT + 1, _ => 0))]
      ensures SameOtherFiles(g, old(blocks), old(eff), blocks, eff, inum)
      ensures Logs(old(blocks), blocks, old(logged), logged)
      ensures logged == old(logged) + MapsOf(g, AllOf(old(owner), inum)) + {IBlock(g, inum)}
      ensures forall c: nat :: c < |blocks| && blocks[c] != old(blocks)[c] ==> c == IBlock(g, inum) || c in MapsOf(g, AllOf(old(owner), inum))
    {
      hide BitsOk, OwnedOk, RefsOk, AllOf, SameOtherFiles, SameFiles, SameRefs, Stored, MapsOf;
      ghost var b0, e0, keys, l0 := blocks, eff, ino.Keys, logged;
      FreeAll(inum);
      ghost var b2, e2, l2 := blocks, eff, logged;
      ghost var d := eff[inum].(size := 0);
      ResizeKeeps(g, blocks, eff, owner, extra, inum, d);
      ino := ino[inum := ino[inum].(size := 0)];
      assert ino.Keys == keys;
      eff := eff[inum := d];
      StoredKept(g, blocks, blocks, keys, e2, eff);
      Iupdate(inum);
      LogsTrans(b0, b2, blocks, l0, l2, logged);
      FilesAfterTrunc(g, b0, e0, b2, e2, blocks, eff, inum);
    }
  }
}
