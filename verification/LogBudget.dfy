/** How much log space writei needs at worst.  The bound of WriteCost is reached, so the
    chunk size that filewrite uses is the largest that fits. */
module LogBudget {
  import opened Blocks
  import opened FsLayout
  import opened FsOwnership
  import opened FsImage

  /** No two free blocks share a free-map block. */
  ghost predicate Scattered(g: Geometry, blocks: seq<Block>)
    requires GeometryOk(g, |blocks|)
  {
    forall b: nat, c: nat :: b < c < g.size && !Bit(g, blocks, b) && !Bit(g, blocks, c) ==> BBlock(g, b) != BBlock(g, c)
  }

  /** The worst case for the log: the write extends the file past its direct blocks, the
      file has no indirect block and no block past its end, and every free block has a
      free-map block of its own. */
  ghost predicate WorstCase(g: Geometry, blocks: seq<Block>, d: Dinode, off: nat, n: nat)
    requires DinodeOk(d)
  {
    && GeometryOk(g, |blocks|) && Scattered(g, blocks)
    && off <= d.size && 0 < n && NDIRECT * BSIZE < off + n <= MAXFILE * BSIZE
    && d.addrs[NDIRECT] == 0 && Dense(blocks, d)
    && forall bn: nat :: bn < NDIRECT && d.size <= bn * BSIZE ==> d.addrs[bn] == 0
  }

  /** A block newly referred to had a clear bit, and its free-map block was logged. */
  lemma NewRef(g: Geometry, b0: seq<Block>, e0: seq<Dinode>, own0: map<nat, (nat, nat)>, extra: set<nat>,
               b2: seq<Block>, e2: seq<Dinode>, own2: map<nat, (nat, nat)>, l0: set<nat>, l2: set<nat>, i: nat, s: nat)
    requires Own(g, b0, e0, own0, extra) && Own(g, b2, e2, own2, extra) && KeptRefs(b0, e0, b2, e2) && Logs(b0, b2, l0, l2)
    requires i < |e0| && s < SLOTS && RefBlock(b0, e0[i], s) == 0 && RefBlock(b2, e2[i], s) != 0
    ensures RefBlock(b2, e2[i], s) < g.size && !Bit(g, b0, RefBlock(b2, e2[i], s)) && BBlock(g, RefBlock(b2, e2[i], s)) in l2
  {
    var x := RefBlock(b2, e2[i], s);
    assert x in own2 && x !in extra;
    if x in own0 {
      var (j, t) := own0[x];
      assert RefBlock(b0, e0[j], t) == x;
      ReferencedOnce(g, b2, e2, own2, extra, i, s, j, t);
      assert false;
    }
    assert Bit(g, b2, x) && !Bit(g, b0, x);
  }

  /** The file blocks lo..lo + k in file order, and the indirect block after them. */
  ghost function RangeBlocks(blocks: seq<Block>, d: Dinode, lo: nat, k: nat): (r: seq<nat>)
    requires DinodeOk(d) && lo + k <= MAXFILE
    ensures |r| == k + 1 && r[k] == d.addrs[NDIRECT]
    ensures forall m: nat :: m < k ==> r[m] == FileBlock(blocks, d, lo + m)
  {
    var ind: nat := d.addrs[NDIRECT];
    seq<nat>(k, m requires 0 <= m < k => FileBlock(blocks, d, lo + m)) + [ind]
  }

  /** The free-map blocks of a list of blocks. */
  ghost function MapBlocks(g: Geometry, bs: seq<nat>): (r: seq<nat>)
    ensures |r| == |bs| && forall m: nat :: m < |bs| ==> r[m] == BBlock(g, bs[m])
  {
    seq<nat>(|bs|, m requires 0 <= m < |bs| => BBlock(g, bs[m]))
  }

  /** The indirect block and the file blocks lo..lo + k are distinct data blocks. */
  lemma DataDistinct(g: Geometry, blocks: seq<Block>, eff: seq<Dinode>, owner: map<nat, (nat, nat)>, extra: set<nat>,
                     i: nat, lo: nat, k: nat)
    requires Own(g, blocks, eff, owner, extra) && i < |eff| && lo + k <= MAXFILE && eff[i].addrs[NDIRECT] != 0
    requires forall bn: nat :: lo <= bn < lo + k ==> FileBlock(blocks, eff[i], bn) != 0
    ensures var r := RangeBlocks(blocks, eff[i], lo, k);
            NoDup(r) && forall m: nat :: m < |r| ==> g.datastart <= r[m] < g.size
  {
    hide BitsOk;
    var data := RangeBlocks(blocks, eff[i], lo, k);
    assert RefBlock(blocks, eff[i], NDIRECT) == eff[i].addrs[NDIRECT];
    forall a: nat, b: nat | a < b < k ensures data[a] != data[b] {
      if data[a] == data[b] {
        ReferencedOnce(g, blocks, eff, owner, extra, i, SlotOf(lo + a), i, SlotOf(lo + b));
      }
    }
    forall a: nat | a < k ensures data[a] != eff[i].addrs[NDIRECT] {
      if data[a] == eff[i].addrs[NDIRECT] {
        ReferencedOnce(g, blocks, eff, owner, extra, i, SlotOf(lo + a), i, NDIRECT);
      }
    }
  }

  /** Distinct free blocks have distinct free-map blocks when the free map is scattered. */
  lemma MapsDistinct(g: Geometry, blocks: seq<Block>, bs: seq<nat>)
    requires GeometryOk(g, |blocks|) && Scattered(g, blocks) && NoDup(bs)
    requires forall m: nat :: m < |bs| ==> bs[m] < g.size && !Bit(g, blocks, bs[m])
    ensures NoDup(MapBlocks(g, bs))
  {
    forall a: nat, b: nat | a < b < |bs| ensures BBlock(g, bs[a]) != BBlock(g, bs[b]) {
      assert bs[a] != bs[b];
    }
  }

  /** Data, free-map and inode blocks lie in three different areas of the disk. */
  lemma CountLogged(g: Geometry, data: seq<nat>, maps: seq<nat>, inode: nat, logged: set<nat>)
    requires NoDup(data) && NoDup(maps) && inode < g.bmapstart <= g.datastart && inode in logged
    requires forall m: nat :: m < |data| ==> g.datastart <= data[m] && data[m] in logged
    requires forall m: nat :: m < |maps| ==> g.bmapstart <= maps[m] < g.datastart && maps[m] in logged
    ensures |logged| >= |data| + |maps| + 1
  {
    NoDupCard(data + maps + [inode], logged);
  }

  /** First file block past the end of a file of the given size. */
  function Have(size: nat): (k: nat) { (size + BSIZE - 1) / BSIZE }

  /** Number of file blocks that a write ending at offset end reaches. */
  function Last(end: nat): (k: nat)
    requires end > 0
  {
    (end - 1) / BSIZE + 1
  }

  /** The blocks past the old end are new, and so is the indirect block. */
  lemma WorstCaseRange(blocks: seq<Block>, g: Geometry, d: Dinode, off: nat, n: nat)
    requires DinodeOk(d) && WorstCase(g, blocks, d, off, n)
    ensures GeometryOk(g, |blocks|) && Scattered(g, blocks) && 0 < n && d.addrs[NDIRECT] == 0 && off + n <= MAXFILE * BSIZE
    ensures Have(d.size) <= NDIRECT < Last(off + n) <= MAXFILE && off / BSIZE <= Last(off + n)
    ensures WriteCost(d.size, off, n) == Last(off + n) - off / BSIZE + Last(off + n) - Have(d.size) + 3
    ensures forall bn: nat :: Have(d.size) <= bn < Last(off + n) ==> FileBlock(blocks, d, bn) == 0
  {
    assert FileBlock(blocks, d, NDIRECT) == 0;
  }

  /** The new references: each had a clear bit, and its free-map block was logged. */
  lemma NewRefs(g: Geometry, b0: seq<Block>, e0: seq<Dinode>, own0: map<nat, (nat, nat)>, extra: set<nat>,
                b2: seq<Block>, e2: seq<Dinode>, own2: map<nat, (nat, nat)>, l0: set<nat>, l2: set<nat>,
                i: nat, lo: nat, k: nat)
    requires Own(g, b0, e0, own0, extra) && Own(g, b2, e2, own2, extra) && KeptRefs(b0, e0, b2, e2) && Logs(b0, b2, l0, l2)
    requires i < |e0| && lo + k <= MAXFILE && e0[i].addrs[NDIRECT] == 0 && e2[i].addrs[NDIRECT] != 0
    requires forall bn: nat :: lo <= bn < lo + k ==> FileBlock(b0, e0[i], bn) == 0 && FileBlock(b2, e2[i], bn) != 0
    ensures forall m: nat :: m < k + 1 ==>
              var x := RangeBlocks(b2, e2[i], lo, k)[m];
              x < g.size && !Bit(g, b0, x) && BBlock(g, x) in l2
  {
    hide BitsOk, OwnedOk, RefsOk, KeptRefs, Logs;
    var gained := RangeBlocks(b2, e2[i], lo, k);
    forall m: nat | m < k + 1 ensures gained[m] < g.size && !Bit(g, b0, gained[m]) && BBlock(g, gained[m]) in l2 {
      var s := if m == k then NDIRECT else SlotOf(lo + m);
      assert RefBlock(b2, e2[i], s) == gained[m];
      NewRef(g, b0, e0, own0, extra, b2, e2, own2, l0, l2, i, s);
    }
  }

  /** The new size lies at or past the end of the write, so the whole range exists. */
  lemma RangeExists(blocks: seq<Block>, d: Dinode, end: nat)
    requires DinodeOk(d) && Dense(blocks, d) && 0 < end <= d.size
    ensures Last(end) <= MAXFILE && forall bn: nat :: bn < Last(end) ==> FileBlock(blocks, d, bn) != 0
  {
  }

  lemma RangeTouched(blocks: seq<Block>, d0: Dinode, d: Dinode, off: nat, n: nat, logged: set<nat>)
    requires DinodeOk(d0) && DinodeOk(d) && 0 < n && off + n <= MAXFILE * BSIZE
    requires Touched(blocks, d0, d, off, n, logged) && d0.addrs[NDIRECT] == 0 && d.addrs[NDIRECT] != 0
    ensures forall x <- RangeBlocks(blocks, d, off / BSIZE, Last(off + n) - off / BSIZE) :: x in logged
  {
    var lo, k := off / BSIZE, Last(off + n) - off / BSIZE;
    forall m: nat | m < k ensures RangeBlocks(blocks, d, lo, k)[m] in logged {
      assert (lo + m) * BSIZE < off + n;
      assert FileBlock(blocks, d, lo + m) in logged;
    }
  }

  /** In the worst case a write that completed has logged WriteCost blocks: the blocks of
      the range, a free-map block for each new block, the indirect block and the inode's. */
  lemma WorstCaseCost(g: Geometry, b0: seq<Block>, e0: seq<Dinode>, own0: map<nat, (nat, nat)>, extra: set<nat>,
                      b2: seq<Block>, e2: seq<Dinode>, own2: map<nat, (nat, nat)>, l0: set<nat>, l2: set<nat>,
                      i: nat, off: nat, n: nat)
    requires Own(g, b0, e0, own0, extra) && Own(g, b2, e2, own2, extra) && KeptRefs(b0, e0, b2, e2) && Logs(b0, b2, l0, l2)
    requires i < |e0| && WorstCase(g, b0, e0[i], off, n) && Dense(b2, e2[i]) && e2[i].size >= off + n
    requires Touched(b2, e0[i], e2[i], off, n, l2) && IBlock(g, i) in l2
    ensures |l2| >= WriteCost(e0[i].size, off, n)
  {
    hide BitsOk, OwnedOk, RefsOk, KeptRefs, Logs, Touched, Dense, WriteCost, NoDup, Scattered, WorstCase, Have, Last;
    WorstCaseRange(b0, g, e0[i], off, n);
    var lo, hi, have := off / BSIZE, Last(off + n), Have(e0[i].size);
    RangeExists(b2, e2[i], off + n);
    assert FileBlock(b2, e2[i], hi - 1) != 0;
    RangeTouched(b2, e0[i], e2[i], off, n, l2);
    DataDistinct(g, b2, e2, own2, extra, i, lo, hi - lo);
    DataDistinct(g, b2, e2, own2, extra, i, have, hi - have);
    NewRefs(g, b0, e0, own0, extra, b2, e2, own2, l0, l2, i, have, hi - have);
    var data := RangeBlocks(b2, e2[i], lo, hi - lo);
    var maps := MapBlocks(g, RangeBlocks(b2, e2[i], have, hi - have));
    MapsDistinct(g, b0, RangeBlocks(b2, e2[i], have, hi - have));
    CountLogged(g, data, maps, IBlock(g, i), l2);
  }

  // ---------------------------------------------------------------- enough free blocks

  /** A block that was owned or free is owned once the disk is full. */
  lemma OwnedWhenFull(g: Geometry, b0: seq<Block>, e0: seq<Dinode>, own0: map<nat, (nat, nat)>,
                      b1: seq<Block>, e1: seq<Dinode>, own1: map<nat, (nat, nat)>, extra: set<nat>, c: nat)
    requires Own(g, b0, e0, own0, extra) && Own(g, b1, e1, own1, extra) && c < g.size && Bit(g, b1, c)
    requires c in own0 || (g.datastart <= c && !Bit(g, b0, c))
    ensures c in own1 && (c in own0 ==> Bit(g, b0, c))
  {
    hide RefsOk;
  }

  /** If a write that fails has allocated at most k blocks, then no more than k were free. */
  lemma EnoughFree(g: Geometry, b0: seq<Block>, e0: seq<Dinode>, own0: map<nat, (nat, nat)>,
                   b1: seq<Block>, e1: seq<Dinode>, own1: map<nat, (nat, nat)>, extra: set<nat>, free: set<nat>)
    requires Own(g, b0, e0, own0, extra) && Own(g, b1, e1, own1, extra)
    requires forall c <- free :: g.datastart <= c < g.size && !Bit(g, b0, c)
    requires forall c: nat :: c < g.size ==> Bit(g, b1, c)
    ensures |own0| + |free| <= |own1|
  {
    hide RefsOk, BitsOk, Bit;
    forall c <- own0.Keys + free ensures c in own1.Keys && (c in own0 ==> c !in free) {
      OwnedWhenFull(g, b0, e0, own0, b1, e1, own1, extra, c);
    }
    hide OwnedOk, Own;
    SubsetCard(own0.Keys + free, own1.Keys);
  }
}
