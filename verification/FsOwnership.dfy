/** Who owns each block.  `owner` maps every data or indirect block in use to the one
    place (inode, slot) that refers to it; `extra` holds blocks marked in use that
    nothing refers to yet (between balloc and the store of its result) or any more
    (between unlinking and bfree). */
module FsOwnership {
  import opened Blocks
  import opened FsLayout

  /** The free-map bit of block b. */
  predicate Bit(g: Geometry, blocks: seq<Block>, b: nat)
    requires GeometryOk(g, |blocks|) && b < g.size
  {
    BitAt(blocks[BBlock(g, b)], b % BPB)
  }

  ghost predicate InodesOk(g: Geometry, eff: seq<Dinode>) {
    |eff| == g.ninodes && forall i :: 0 <= i < |eff| ==> DinodeOk(eff[i])
  }

  /** A bit is set iff its block is metadata, owned, or in extra. */
  ghost predicate BitsOk(g: Geometry, blocks: seq<Block>, owner: map<nat, (nat, nat)>, extra: set<nat>)
    requires GeometryOk(g, |blocks|)
  {
    forall b: nat :: b < g.size ==> (Bit(g, blocks, b) <==> b < g.datastart || b in owner || b in extra)
  }

  /** Owned blocks are data blocks referred to by their owner. */
  ghost predicate OwnedOk(g: Geometry, blocks: seq<Block>, eff: seq<Dinode>, owner: map<nat, (nat, nat)>)
    requires InodesOk(g, eff)
  {
    forall b <- owner ::
      && g.datastart <= b < g.size && owner[b].0 < |eff| && owner[b].1 < SLOTS
      && RefBlock(blocks, eff[owner[b].0], owner[b].1) == b
  }

  /** Every reference is to a block owned by that very reference. */
  ghost predicate RefsOk(g: Geometry, blocks: seq<Block>, eff: seq<Dinode>, owner: map<nat, (nat, nat)>)
    requires InodesOk(g, eff)
  {
    forall i: nat, s: nat :: i < |eff| && s < SLOTS && RefBlock(blocks, eff[i], s) != 0 ==>
      RefBlock(blocks, eff[i], s) in owner && owner[RefBlock(blocks, eff[i], s)] == (i, s)
  }

  /** The block-ownership invariant. */
  ghost predicate Own(g: Geometry, blocks: seq<Block>, eff: seq<Dinode>, owner: map<nat, (nat, nat)>, extra: set<nat>) {
    && GeometryOk(g, |blocks|) && InodesOk(g, eff)
    && BitsOk(g, blocks, owner, extra) && OwnedOk(g, blocks, eff, owner) && RefsOk(g, blocks, eff, owner)
    && (forall b <- extra :: g.datastart <= b < g.size && b !in owner)
  }

  /** The inodes outside keys are as the disk has them. */
  ghost predicate Stored(g: Geometry, blocks: seq<Block>, keys: set<nat>, eff: seq<Dinode>)
    requires GeometryOk(g, |blocks|) && |eff| == g.ninodes
  {
    forall i: nat {:trigger IBlock(g, i)} :: i < g.ninodes && i !in keys ==> eff[i] == DecodeInode(blocks[IBlock(g, i)], i % IPB)
  }

  /** Blocks past the inodes do not matter for that, nor do inodes in memory. */
  lemma StoredKept(g: Geometry, b0: seq<Block>, b1: seq<Block>, keys: set<nat>, eff: seq<Dinode>, eff': seq<Dinode>)
    requires GeometryOk(g, |b0|) && |b1| == |b0| && |eff| == |eff'| == g.ninodes && Stored(g, b0, keys, eff)
    requires forall c: nat :: c < g.bmapstart ==> b1[c] == b0[c]
    requires forall i: nat :: i < g.ninodes && i !in keys ==> eff'[i] == eff[i]
    ensures Stored(g, b1, keys, eff')
  {
  }

  /** All files read the same, at every offset, in both states. */
  ghost predicate SameFiles(g: Geometry, blocks: seq<Block>, eff: seq<Dinode>, blocks': seq<Block>, eff': seq<Dinode>)
    requires InodesOk(g, eff) && InodesOk(g, eff')
  {
    forall i: nat, x: nat :: i < |eff| && x < MAXFILE * BSIZE ==>
      FileByte(blocks', eff'[i], x) == FileByte(blocks, eff[i], x)
  }

  lemma FilesSame(g: Geometry, b: seq<Block>, e: seq<Dinode>)
    requires InodesOk(g, e)
    ensures SameFiles(g, b, e, b, e)
  {
  }

  lemma FilesTrans(g: Geometry, b0: seq<Block>, e: seq<Dinode>, b1: seq<Block>, b2: seq<Block>)
    requires InodesOk(g, e) && SameFiles(g, b0, e, b1, e) && SameFiles(g, b1, e, b2, e)
    ensures SameFiles(g, b0, e, b2, e)
  {
  }

  ghost predicate SameRefs(blocks: seq<Block>, eff: seq<Dinode>, blocks': seq<Block>)
    requires forall i :: 0 <= i < |eff| ==> DinodeOk(eff[i])
  {
    forall i: nat, s: nat :: i < |eff| && s < SLOTS ==> RefBlock(blocks', eff[i], s) == RefBlock(blocks, eff[i], s)
  }

  // ---------------------------------------------------------------- consequences

  /** No block is referred to twice, over all inodes and slots. */
  lemma ReferencedOnce(g: Geometry, blocks: seq<Block>, eff: seq<Dinode>, owner: map<nat, (nat, nat)>, extra: set<nat>,
                       i: nat, s: nat, j: nat, t: nat)
    requires Own(g, blocks, eff, owner, extra) && i < |eff| && j < |eff| && s < SLOTS && t < SLOTS
    requires RefBlock(blocks, eff[i], s) != 0 && RefBlock(blocks, eff[i], s) == RefBlock(blocks, eff[j], t)
    ensures i == j && s == t
  {
  }

  /** With nothing in between, a data block's bit is set exactly when some slot of some
      inode refers to it. */
  lemma BitIffReferenced(g: Geometry, blocks: seq<Block>, eff: seq<Dinode>, owner: map<nat, (nat, nat)>, b: nat)
    requires Own(g, blocks, eff, owner, {}) && b < g.size
    ensures Bit(g, blocks, b) <==>
            b < g.datastart || exists i: nat, s: nat :: i < |eff| && s < SLOTS && RefBlock(blocks, eff[i], s) == b
  {
  }

  // ---------------------------------------------------------------- single updates

  /** A block that is not an indirect block may change without moving any reference. */
  lemma RefsUnmoved(g: Geometry, blocks: seq<Block>, eff: seq<Dinode>, owner: map<nat, (nat, nat)>, b: nat, data: Block)
    requires InodesOk(g, eff) && RefsOk(g, blocks, eff, owner) && b < |blocks|
    requires b in owner ==> owner[b].1 != NDIRECT
    requires b != 0
    ensures SameRefs(blocks, eff, blocks[b := data])
  {
    forall i: nat | i < |eff| ensures eff[i].addrs[NDIRECT] != b {
      assert RefBlock(blocks, eff[i], NDIRECT) == eff[i].addrs[NDIRECT];
    }
  }

  /** Contents of a data block, or of an inode block, may change freely. */
  lemma WriteKeepsOwn(g: Geometry, blocks: seq<Block>, eff: seq<Dinode>, owner: map<nat, (nat, nat)>, extra: set<nat>,
                      b: nat, data: Block)
    requires Own(g, blocks, eff, owner, extra) && 0 < b < |blocks|
    requires b < g.bmapstart || b >= g.datastart
    requires b in owner ==> owner[b].1 != NDIRECT
    ensures Own(g, blocks[b := data], eff, owner, extra)
    ensures SameRefs(blocks, eff, blocks[b := data])
  {
    RefsUnmoved(g, blocks, eff, owner, b, data);
    var blocks' := blocks[b := data];
    forall c: nat | c < g.size ensures Bit(g, blocks', c) == Bit(g, blocks, c) {
    }
  }

  /** Files whose blocks were not touched read the same. */
  lemma WriteElsewhere(blocks: seq<Block>, d: Dinode, b: nat, data: Block, x: nat)
    requires DinodeOk(d) && x < MAXFILE * BSIZE && b < |blocks|
    requires FileBlock(blocks[b := data], d, x / BSIZE) == FileBlock(blocks, d, x / BSIZE) != b
    ensures FileByte(blocks[b := data], d, x) == FileByte(blocks, d, x)
  {
  }

  /** Flipping the free-map bit of a block. */
  lemma FlipBit(g: Geometry, blocks: seq<Block>, b: nat, on: bool, c: nat)
    requires GeometryOk(g, |blocks|) && b < g.size && c < g.size
    ensures var m := BBlock(g, b);
            g.bmapstart <= m < g.datastart
            && Bit(g, blocks[m := PutBit(blocks[m], b % BPB, on)], c) == if c == b then on else Bit(g, blocks, c)
  {
  }

  lemma BitmapWriteKeeps(g: Geometry, blocks: seq<Block>, eff: seq<Dinode>, owner: map<nat, (nat, nat)>, extra: set<nat>,
                         b: nat, on: bool, extra': set<nat>)
    requires Own(g, blocks, eff, owner, extra) && g.datastart <= b < g.size && b !in owner
    requires extra' == if on then extra + {b} else extra - {b}
    ensures var m := BBlock(g, b);
            m < |blocks| && var blocks' := blocks[m := PutBit(blocks[m], b % BPB, on)];
            Own(g, blocks', eff, owner, extra') && SameRefs(blocks, eff, blocks') && SameFiles(g, blocks, eff, blocks', eff)
  {
    FlipBit(g, blocks, b, on, b);
    var m := BBlock(g, b);
    var blocks' := blocks[m := PutBit(blocks[m], b % BPB, on)];
    RefsUnmoved(g, blocks, eff, owner, m, PutBit(blocks[m], b % BPB, on));
    forall c: nat | c < g.size ensures Bit(g, blocks', c) == if c == b then on else Bit(g, blocks, c) {
      FlipBit(g, blocks, b, on, c);
    }
    forall i: nat, x: nat | i < |eff| && x < MAXFILE * BSIZE
      ensures FileByte(blocks', eff[i], x) == FileByte(blocks, eff[i], x)
    {
      assert FileBlock(blocks, eff[i], x / BSIZE) == RefBlock(blocks, eff[i], SlotOf(x / BSIZE));
      WriteElsewhere(blocks, eff[i], m, PutBit(blocks[m], b % BPB, on), x);
    }
  }

  /** A block nothing refers to may be overwritten (bzero). */
  lemma ZeroKeeps(g: Geometry, blocks: seq<Block>, eff: seq<Dinode>, owner: map<nat, (nat, nat)>, extra: set<nat>,
                  b: nat, data: Block)
    requires Own(g, blocks, eff, owner, extra) && b in extra
    ensures Own(g, blocks[b := data], eff, owner, extra) && SameFiles(g, blocks, eff, blocks[b := data], eff)
    ensures SameRefs(blocks, eff, blocks[b := data])
  {
    WriteKeepsOwn(g, blocks, eff, owner, extra, b, data);
    forall i: nat, x: nat | i < |eff| && x < MAXFILE * BSIZE
      ensures FileByte(blocks[b := data], eff[i], x) == FileByte(blocks, eff[i], x)
    {
      assert FileBlock(blocks, eff[i], x / BSIZE) == RefBlock(blocks, eff[i], SlotOf(x / BSIZE));
      WriteElsewhere(blocks, eff[i], b, data, x);
    }
  }

  // ---------------------------------------------------------------- taking and dropping references

  function SetAddr(d: Dinode, s: nat, b: Word): (r: Dinode)
    requires DinodeOk(d) && s <= NDIRECT
    ensures DinodeOk(r)
  {
    d.(addrs := d.addrs[s := b])
  }

  /** Inode i gained references and lost none; every file reads the same. */
  ghost predicate Grown(g: Geometry, blocks: seq<Block>, eff: seq<Dinode>, blocks': seq<Block>, eff': seq<Dinode>, i: nat)
    requires InodesOk(g, eff) && InodesOk(g, eff') && i < |eff|
  {
    && |blocks'| == |blocks| && SameFiles(g, blocks, eff, blocks', eff')
    && (forall j: nat :: j < |eff| && j != i ==> eff'[j] == eff[j])
    && eff'[i] == eff[i].(addrs := eff'[i].addrs)
    && (forall j: nat, s: nat {:trigger RefBlock(blocks', eff'[j], s)} ::
          j < |eff| && s < SLOTS && RefBlock(blocks, eff[j], s) != 0 ==>
            RefBlock(blocks', eff'[j], s) == RefBlock(blocks, eff[j], s))
  }

  lemma GrownTrans(g: Geometry, b0: seq<Block>, e0: seq<Dinode>, b1: seq<Block>, e1: seq<Dinode>,
                   b2: seq<Block>, e2: seq<Dinode>, i: nat)
    requires InodesOk(g, e0) && InodesOk(g, e1) && InodesOk(g, e2) && i < |e0|
    requires Grown(g, b0, e0, b1, e1, i) && Grown(g, b1, e1, b2, e2, i)
    ensures Grown(g, b0, e0, b2, e2, i)
  {
  }

  lemma GrownSame(g: Geometry, blocks: seq<Block>, eff: seq<Dinode>, i: nat)
    requires InodesOk(g, eff) && i < |eff|
    ensures Grown(g, blocks, eff, blocks, eff, i)
  {
  }

  lemma GrownByAlloc(g: Geometry, b0: seq<Block>, b1: seq<Block>, eff: seq<Dinode>, i: nat)
    requires InodesOk(g, eff) && i < |eff| && |b1| == |b0| && SameRefs(b0, eff, b1) && SameFiles(g, b0, eff, b1, eff)
    ensures Grown(g, b0, eff, b1, eff, i)
  {
  }

  lemma RefsAlike(b0: seq<Block>, eff: seq<Dinode>, b1: seq<Block>, i: nat, s: nat)
    requires (forall j :: 0 <= j < |eff| ==> DinodeOk(eff[j])) && SameRefs(b0, eff, b1) && i < |eff| && s < SLOTS
    ensures RefBlock(b1, eff[i], s) == RefBlock(b0, eff[i], s)
  {
  }

  lemma RefInRange(g: Geometry, blocks: seq<Block>, eff: seq<Dinode>, owner: map<nat, (nat, nat)>, extra: set<nat>, i: nat, s: nat)
    requires Own(g, blocks, eff, owner, extra) && i < |eff| && s < SLOTS && RefBlock(blocks, eff[i], s) != 0
    ensures g.datastart <= RefBlock(blocks, eff[i], s) < g.size <= |blocks| && RefBlock(blocks, eff[i], s) !in extra
  {
  }

  lemma DataBits(g: Geometry, blocks: seq<Block>, b: nat, data: Block)
    requires GeometryOk(g, |blocks|) && g.datastart <= b < |blocks|
    ensures forall c: nat :: c < g.size ==> Bit(g, blocks[b := data], c) == Bit(g, blocks, c)
  {
  }

  /** The indirect block of an inode, if it has one. */
  function IndirectOf(d: Dinode): (r: set<nat>)
    requires DinodeOk(d)
  {
    if d.addrs[NDIRECT] == 0 then {} else {d.addrs[NDIRECT]}
  }

  /** Slot s of inode i, empty before, refers to b, and all else is as it was. */
  ghost predicate Gains(blocks: seq<Block>, eff: seq<Dinode>, blocks': seq<Block>, eff': seq<Dinode>, i: nat, s: nat, b: nat)
    requires |eff| == |eff'| && forall j :: 0 <= j < |eff| ==> DinodeOk(eff[j]) && DinodeOk(eff'[j])
  {
    && i < |eff| && s < SLOTS && RefBlock(blocks, eff[i], s) == 0
    && forall j: nat, t: nat {:trigger RefBlock(blocks', eff'[j], t)} :: j < |eff| && t < SLOTS ==>
         RefBlock(blocks', eff'[j], t) == if j == i && t == s then b else RefBlock(blocks, eff[j], t)
  }

  lemma GainsAt(blocks: seq<Block>, eff: seq<Dinode>, blocks': seq<Block>, eff': seq<Dinode>, i: nat, s: nat, b: nat)
    requires |eff| == |eff'| && forall j :: 0 <= j < |eff| ==> DinodeOk(eff[j]) && DinodeOk(eff'[j])
    requires Gains(blocks, eff, blocks', eff', i, s, b)
    ensures RefBlock(blocks', eff'[i], s) == b
  {
  }

  lemma GainsOwned(g: Geometry, blocks: seq<Block>, eff: seq<Dinode>, owner: map<nat, (nat, nat)>, extra: set<nat>,
                   blocks': seq<Block>, eff': seq<Dinode>, i: nat, s: nat, b: nat)
    requires Own(g, blocks, eff, owner, extra) && b in extra && InodesOk(g, eff') && Gains(blocks, eff, blocks', eff', i, s, b)
    ensures OwnedOk(g, blocks', eff', owner[b := (i, s)])
  {
    hide BitsOk, RefsOk;
  }

  lemma GainsRefs(g: Geometry, blocks: seq<Block>, eff: seq<Dinode>, owner: map<nat, (nat, nat)>, extra: set<nat>,
                  blocks': seq<Block>, eff': seq<Dinode>, i: nat, s: nat, b: nat)
    requires Own(g, blocks, eff, owner, extra) && b in extra && InodesOk(g, eff') && Gains(blocks, eff, blocks', eff', i, s, b)
    ensures RefsOk(g, blocks', eff', owner[b := (i, s)])
  {
    hide BitsOk, OwnedOk;
  }

  /** A block held back so far becomes the property of that slot. */
  lemma GainsKeeps(g: Geometry, blocks: seq<Block>, eff: seq<Dinode>, owner: map<nat, (nat, nat)>, extra: set<nat>,
                   blocks': seq<Block>, eff': seq<Dinode>, i: nat, s: nat, b: nat)
    requires Own(g, blocks, eff, owner, extra) && b in extra && InodesOk(g, eff') && Gains(blocks, eff, blocks', eff', i, s, b)
    requires |blocks'| == |blocks| && forall c: nat :: c < g.size ==> Bit(g, blocks', c) == Bit(g, blocks, c)
    ensures Own(g, blocks', eff', owner[b := (i, s)], extra - {b})
  {
    hide Gains, RefsOk, OwnedOk, Bit;
    GainsOwned(g, blocks, eff, owner, extra, blocks', eff', i, s, b);
    GainsRefs(g, blocks, eff, owner, extra, blocks', eff', i, s, b);
  }

  lemma GainsGrown(g: Geometry, blocks: seq<Block>, eff: seq<Dinode>, blocks': seq<Block>, eff': seq<Dinode>, i: nat, s: nat, b: nat)
    requires InodesOk(g, eff) && InodesOk(g, eff') && Gains(blocks, eff, blocks', eff', i, s, b)
    requires |blocks'| == |blocks| && SameFiles(g, blocks, eff, blocks', eff')
    requires (forall j: nat :: j < |eff| && j != i ==> eff'[j] == eff[j]) && eff'[i] == eff[i].(addrs := eff'[i].addrs)
    ensures Grown(g, blocks, eff, blocks', eff', i)
  {
  }

  /** bmap stores a fresh zeroed block into an empty direct slot, or as indirect block. */
  lemma AttachKeeps(g: Geometry, blocks: seq<Block>, eff: seq<Dinode>, owner: map<nat, (nat, nat)>, extra: set<nat>,
                    i: nat, s: nat, b: nat)
    requires Own(g, blocks, eff, owner, extra) && i < |eff| && s <= NDIRECT && b in extra
    requires eff[i].addrs[s] == 0 && blocks[b] == ZeroBlock
    ensures var eff' := eff[i := SetAddr(eff[i], s, b)];
            Own(g, blocks, eff', owner[b := (i, s)], extra - {b}) && Grown(g, blocks, eff, blocks, eff', i)
  {
    hide BitsOk, OwnedOk, RefsOk;
    var eff' := eff[i := SetAddr(eff[i], s, b)];
    AttachGains(blocks, eff, i, s, b);
    AttachReadsZero(blocks, eff[i], s, b);
    hide Gains;
    GainsKeeps(g, blocks, eff, owner, extra, blocks, eff', i, s, b);
    GainsGrown(g, blocks, eff, blocks, eff', i, s, b);
  }

  lemma AttachGains(blocks: seq<Block>, eff: seq<Dinode>, i: nat, s: nat, b: nat)
    requires (forall j :: 0 <= j < |eff| ==> DinodeOk(eff[j])) && i < |eff| && s <= NDIRECT && b < |blocks| <= TWO32
    requires DinodeOk(eff[i]) && eff[i].addrs[s] == 0 && blocks[b] == ZeroBlock
    ensures Gains(blocks, eff, blocks, eff[i := SetAddr(eff[i], s, b)], i, s, b)
  {
    var d' := SetAddr(eff[i], s, b);
    assert forall t: nat :: t < SLOTS && t != s ==> RefBlock(blocks, d', t) == RefBlock(blocks, eff[i], t);
  }

  lemma AttachReadsZero(blocks: seq<Block>, d: Dinode, s: nat, b: nat)
    requires DinodeOk(d) && s <= NDIRECT && 0 < b < |blocks| <= TWO32 && d.addrs[s] == 0 && blocks[b] == ZeroBlock
    ensures forall x: nat :: x < MAXFILE * BSIZE ==> FileByte(blocks, SetAddr(d, s, b), x) == FileByte(blocks, d, x)
  {
  }

  /** bmap stores a fresh zeroed block into an empty entry of the indirect block. */
  lemma AttachEntryKeeps(g: Geometry, blocks: seq<Block>, eff: seq<Dinode>, owner: map<nat, (nat, nat)>, extra: set<nat>,
                         i: nat, j: nat, b: nat)
    requires Own(g, blocks, eff, owner, extra) && i < |eff| && j < NINDIRECT && b in extra
    requires eff[i].addrs[NDIRECT] != 0 && RefBlock(blocks, eff[i], NDIRECT + 1 + j) == 0 && blocks[b] == ZeroBlock
    ensures var ind := eff[i].addrs[NDIRECT];
            g.datastart <= ind < |blocks| && ind != b
            && var blocks' := blocks[ind := PutWord(blocks[ind], j, b)];
               Own(g, blocks', eff, owner[b := (i, NDIRECT + 1 + j)], extra - {b}) && Grown(g, blocks, eff, blocks', eff, i)
               && RefBlock(blocks', eff[i], NDIRECT + 1 + j) == b
  {
    hide RefsOk, BitsOk, OwnedOk, SameFiles, PutWord, Bit, WordAt, Gains;
    RefInRange(g, blocks, eff, owner, extra, i, NDIRECT);
    var ind := eff[i].addrs[NDIRECT];
    var blocks' := blocks[ind := PutWord(blocks[ind], j, b)];
    DataBits(g, blocks, ind, PutWord(blocks[ind], j, b));
    EntryGains(g, blocks, eff, owner, i, j, b);
    GainsAt(blocks, eff, blocks', eff, i, NDIRECT + 1 + j, b);
    EntryFiles(g, blocks, eff, owner, i, j, b);
    GainsKeeps(g, blocks, eff, owner, extra, blocks', eff, i, NDIRECT + 1 + j, b);
    GainsGrown(g, blocks, eff, blocks', eff, i, NDIRECT + 1 + j, b);
  }

  lemma EntryGains(g: Geometry, blocks: seq<Block>, eff: seq<Dinode>, owner: map<nat, (nat, nat)>, i: nat, j: nat, b: nat)
    requires InodesOk(g, eff) && RefsOk(g, blocks, eff, owner) && i < |eff| && j < NINDIRECT && b < TWO32
    requires 0 < eff[i].addrs[NDIRECT] < |blocks| && RefBlock(blocks, eff[i], NDIRECT + 1 + j) == 0
    ensures var ind := eff[i].addrs[NDIRECT];
            Gains(blocks, eff, blocks[ind := PutWord(blocks[ind], j, b)], eff, i, NDIRECT + 1 + j, b)
  {
    EntryRefs(g, blocks, eff, owner, i, j, b);
    hide RefsOk;
  }

  lemma EntryFiles(g: Geometry, blocks: seq<Block>, eff: seq<Dinode>, owner: map<nat, (nat, nat)>, i: nat, j: nat, b: nat)
    requires InodesOk(g, eff) && RefsOk(g, blocks, eff, owner) && i < |eff| && j < NINDIRECT && b < |blocks| <= TWO32
    requires 0 < eff[i].addrs[NDIRECT] < |blocks| && RefBlock(blocks, eff[i], NDIRECT + 1 + j) == 0
    requires b != eff[i].addrs[NDIRECT] && blocks[b] == ZeroBlock
    ensures var ind := eff[i].addrs[NDIRECT]; SameFiles(g, blocks, eff, blocks[ind := PutWord(blocks[ind], j, b)], eff)
  {
    var ind := eff[i].addrs[NDIRECT];
    var blocks' := blocks[ind := PutWord(blocks[ind], j, b)];
    EntryRefs(g, blocks, eff, owner, i, j, b);
    assert RefBlock(blocks, eff[i], NDIRECT) == ind;
    forall k: nat, x: nat | k < |eff| && x < MAXFILE * BSIZE
      ensures FileByte(blocks', eff[k], x) == FileByte(blocks, eff[k], x)
    {
      var s := SlotOf(x / BSIZE);
      assert FileBlock(blocks, eff[k], x / BSIZE) == RefBlock(blocks, eff[k], s);
      assert FileBlock(blocks', eff[k], x / BSIZE) == RefBlock(blocks', eff[k], s);
      if (k, s) != (i, NDIRECT + 1 + j) {
        WriteElsewhere(blocks, eff[k], ind, PutWord(blocks[ind], j, b), x);
      }
    }
  }

  lemma EntryRefs(g: Geometry, blocks: seq<Block>, eff: seq<Dinode>, owner: map<nat, (nat, nat)>, i: nat, j: nat, b: nat)
    requires InodesOk(g, eff) && RefsOk(g, blocks, eff, owner) && i < |eff| && j < NINDIRECT && b < TWO32
    requires 0 < eff[i].addrs[NDIRECT] < |blocks|
    ensures var ind := eff[i].addrs[NDIRECT];
            var blocks' := blocks[ind := PutWord(blocks[ind], j, b)];
            forall k: nat, s: nat :: k < |eff| && s < SLOTS ==>
              RefBlock(blocks', eff[k], s) == if (k, s) == (i, NDIRECT + 1 + j) then b else RefBlock(blocks, eff[k], s)
  {
    var ind := eff[i].addrs[NDIRECT];
    var blocks' := blocks[ind := PutWord(blocks[ind], j, b)];
    forall k: nat, s: nat | k < |eff| && s < SLOTS
      ensures RefBlock(blocks', eff[k], s) == if (k, s) == (i, NDIRECT + 1 + j) then b else RefBlock(blocks, eff[k], s)
    {
      assert RefBlock(blocks, eff[k], NDIRECT) == eff[k].addrs[NDIRECT];
      assert RefBlock(blocks, eff[i], NDIRECT) == ind;
      if k == i && s > NDIRECT { WordAtPut(blocks[ind], j, b, s - NDIRECT - 1); }
    }
  }

  /** itrunc forgets a direct block: it becomes unreferenced, still marked in use. */
  lemma DetachKeeps(g: Geometry, blocks: seq<Block>, eff: seq<Dinode>, owner: map<nat, (nat, nat)>, extra: set<nat>,
                    i: nat, s: nat)
    requires Own(g, blocks, eff, owner, extra) && i < |eff| && s < NDIRECT && eff[i].addrs[s] != 0
    ensures var b := eff[i].addrs[s];
            Own(g, blocks, eff[i := SetAddr(eff[i], s, 0)], owner - {b}, extra + {b}) && b !in extra
  {
    var b, eff' := eff[i].addrs[s], eff[i := SetAddr(eff[i], s, 0)];
    assert RefBlock(blocks, eff[i], s) == b;
    DetachRefs(blocks, eff, i, s);
    LostOwned(g, blocks, eff, owner, extra, eff', i, s, b);
    LostRefs(g, blocks, eff, owner, extra, eff', i, s, b);
    hide RefsOk;
  }

  lemma DetachRefs(blocks: seq<Block>, eff: seq<Dinode>, i: nat, s: nat)
    requires (forall j :: 0 <= j < |eff| ==> DinodeOk(eff[j])) && i < |eff| && s < NDIRECT && DinodeOk(eff[i])
    ensures var eff' := eff[i := SetAddr(eff[i], s, 0)];
            forall j: nat, t: nat :: j < |eff| && t < SLOTS ==>
              RefBlock(blocks, eff'[j], t) == if j == i && t == s then 0 else RefBlock(blocks, eff[j], t)
  {
  }

  lemma LostOwned(g: Geometry, blocks: seq<Block>, eff: seq<Dinode>, owner: map<nat, (nat, nat)>, extra: set<nat>,
                  eff': seq<Dinode>, i: nat, s: nat, b: nat)
    requires Own(g, blocks, eff, owner, extra) && InodesOk(g, eff') && i < |eff| && s < SLOTS && b == RefBlock(blocks, eff[i], s) != 0
    requires forall j: nat, t: nat {:trigger RefBlock(blocks, eff'[j], t)} :: j < |eff| && t < SLOTS ==>
               RefBlock(blocks, eff'[j], t) == if j == i && t == s then 0 else RefBlock(blocks, eff[j], t)
    ensures OwnedOk(g, blocks, eff', owner - {b}) && b in owner && b !in extra
  {
    hide BitsOk;
  }

  lemma LostRefs(g: Geometry, blocks: seq<Block>, eff: seq<Dinode>, owner: map<nat, (nat, nat)>, extra: set<nat>,
                 eff': seq<Dinode>, i: nat, s: nat, b: nat)
    requires Own(g, blocks, eff, owner, extra) && InodesOk(g, eff') && i < |eff| && s < SLOTS && b == RefBlock(blocks, eff[i], s) != 0
    requires forall j: nat, t: nat {:trigger RefBlock(blocks, eff'[j], t)} :: j < |eff| && t < SLOTS ==>
               RefBlock(blocks, eff'[j], t) == if j == i && t == s then 0 else RefBlock(blocks, eff[j], t)
    ensures RefsOk(g, blocks, eff', owner - {b})
  {
    hide BitsOk, OwnedOk;
  }

  /** The blocks inode i reaches through its indirect block, that block included. */
  function Indirect(owner: map<nat, (nat, nat)>, i: nat): (r: set<nat>) {
    set b <- owner | owner[b].0 == i && owner[b].1 >= NDIRECT
  }

  lemma DetachIndirectKeeps(g: Geometry, blocks: seq<Block>, eff: seq<Dinode>, owner: map<nat, (nat, nat)>, extra: set<nat>,
                            i: nat)
    requires Own(g, blocks, eff, owner, extra) && i < |eff|
    ensures Own(g, blocks, eff[i := SetAddr(eff[i], NDIRECT, 0)], owner - Indirect(owner, i), extra + Indirect(owner, i))
  {
    var eff' := eff[i := SetAddr(eff[i], NDIRECT, 0)];
    forall j: nat, t: nat | j < |eff| && t < SLOTS
      ensures RefBlock(blocks, eff'[j], t) == if j == i && t >= NDIRECT then 0 else RefBlock(blocks, eff[j], t)
    {
    }
  }

  /** Files of other inodes do not depend on inode i's addresses. */
  ghost predicate SameOtherFiles(g: Geometry, blocks: seq<Block>, eff: seq<Dinode>, blocks': seq<Block>, eff': seq<Dinode>, i: nat)
    requires InodesOk(g, eff) && InodesOk(g, eff')
  {
    forall j: nat, x: nat :: j < |eff| && j != i && x < MAXFILE * BSIZE ==>
      FileByte(blocks', eff'[j], x) == FileByte(blocks, eff[j], x)
  }

  /** One byte of one file after block b, file block bn of inode i, was overwritten. */
  lemma ByteAfterWrite(g: Geometry, blocks: seq<Block>, eff: seq<Dinode>, owner: map<nat, (nat, nat)>,
                       i: nat, bn: nat, b: nat, data: Block, j: nat, x: nat)
    requires InodesOk(g, eff) && RefsOk(g, blocks, eff, owner) && i < |eff| && j < |eff|
    requires bn < MAXFILE && x < MAXFILE * BSIZE && 0 < b == FileBlock(blocks, eff[i], bn) < |blocks|
    requires SameRefs(blocks, eff, blocks[b := data])
    ensures FileByte(blocks[b := data], eff[j], x) ==
            if j == i && x / BSIZE == bn then data[x % BSIZE] else FileByte(blocks, eff[j], x)
  {
  }

  /** Writing bytes into file block bn of inode i changes those bytes and nothing else. */
  lemma WriteFileBlock(g: Geometry, blocks: seq<Block>, eff: seq<Dinode>, owner: map<nat, (nat, nat)>, extra: set<nat>,
                       i: nat, bn: nat, data: Block)
    requires Own(g, blocks, eff, owner, extra) && i < |eff| && bn < MAXFILE && FileBlock(blocks, eff[i], bn) != 0
    ensures var b := FileBlock(blocks, eff[i], bn);
            g.datastart <= b < |blocks|
            && var blocks' := blocks[b := data];
               Own(g, blocks', eff, owner, extra) && SameRefs(blocks, eff, blocks')
               && SameOtherFiles(g, blocks, eff, blocks', eff, i)
               && forall x: nat :: x < MAXFILE * BSIZE ==>
                    FileByte(blocks', eff[i], x) == if x / BSIZE == bn then data[x % BSIZE] else FileByte(blocks, eff[i], x)
  {
    var b := FileBlock(blocks, eff[i], bn);
    assert RefBlock(blocks, eff[i], SlotOf(bn)) == b;
    WriteKeepsOwn(g, blocks, eff, owner, extra, b, data);
    forall j: nat, x: nat | j < |eff| && x < MAXFILE * BSIZE
      ensures FileByte(blocks[b := data], eff[j], x) ==
              if j == i && x / BSIZE == bn then data[x % BSIZE] else FileByte(blocks, eff[j], x)
    {
      ByteAfterWrite(g, blocks, eff, owner, i, bn, b, data, j, x);
    }
  }

  // ---------------------------------------------------------------- files

  /** Every file block below the size exists (mkfs images are built so). */
  ghost predicate Dense(blocks: seq<Block>, d: Dinode)
    requires DinodeOk(d)
  {
    && d.size <= MAXFILE * BSIZE
    && forall bn: nat :: bn < MAXFILE && bn * BSIZE < d.size ==> FileBlock(blocks, d, bn) != 0
  }

  /** References are only added. */
  ghost predicate KeptRefs(blocks: seq<Block>, eff: seq<Dinode>, blocks': seq<Block>, eff': seq<Dinode>)
    requires |eff| == |eff'| && forall i :: 0 <= i < |eff| ==> DinodeOk(eff[i]) && DinodeOk(eff'[i])
  {
    forall j: nat, s: nat {:trigger RefBlock(blocks', eff'[j], s)} ::
      j < |eff| && s < SLOTS && RefBlock(blocks, eff[j], s) != 0 ==>
        RefBlock(blocks', eff'[j], s) == RefBlock(blocks, eff[j], s)
  }

  /** Bytes lo..hi of src now stand in file i, byte k at offset off + k; every other byte
      of every file, every other inode, and every inode block is as before. */
  ghost predicate Written(g: Geometry, blocks: seq<Block>, eff: seq<Dinode>, blocks': seq<Block>, eff': seq<Dinode>,
                          i: nat, off: nat, src: seq<Byte>, lo: nat, hi: nat)
    requires InodesOk(g, eff) && InodesOk(g, eff') && i < |eff| && lo <= hi <= |src|
  {
    && |blocks'| == |blocks| && SameOtherFiles(g, blocks, eff, blocks', eff', i)
    && (forall x: nat :: x < MAXFILE * BSIZE ==>
          FileByte(blocks', eff'[i], x) == if off + lo <= x < off + hi then src[x - off] else FileByte(blocks, eff[i], x))
    && (forall j: nat :: j < |eff| && j != i ==> eff'[j] == eff[j])
    && eff'[i] == eff[i].(addrs := eff'[i].addrs)
    && KeptRefs(blocks, eff, blocks', eff')
    && (forall c: nat :: c < g.bmapstart && c < |blocks| ==> blocks'[c] == blocks[c])
  }

  lemma WrittenTrans(g: Geometry, b0: seq<Block>, e0: seq<Dinode>, b1: seq<Block>, e1: seq<Dinode>,
                     b2: seq<Block>, e2: seq<Dinode>, i: nat, off: nat, src: seq<Byte>, lo: nat, mid: nat, hi: nat)
    requires InodesOk(g, e0) && InodesOk(g, e1) && InodesOk(g, e2) && i < |e0| && lo <= mid <= hi <= |src|
    requires Written(g, b0, e0, b1, e1, i, off, src, lo, mid) && Written(g, b1, e1, b2, e2, i, off, src, mid, hi)
    ensures Written(g, b0, e0, b2, e2, i, off, src, lo, hi)
  {
  }

  /** m bytes of a file from offset off. */
  function FileSlice(blocks: seq<Block>, d: Dinode, off: nat, m: nat): (r: seq<Byte>)
    requires DinodeOk(d) && off + m <= MAXFILE * BSIZE
    ensures |r| == m && forall t :: 0 <= t < m ==> r[t] == FileByte(blocks, d, off + t)
  {
    seq<Byte>(m, t requires 0 <= t < m => FileByte(blocks, d, off + t))
  }

  lemma SliceConcat(blocks: seq<Block>, d: Dinode, off: nat, m: nat, k: nat)
    requires DinodeOk(d) && off + m + k <= MAXFILE * BSIZE
    ensures FileSlice(blocks, d, off, m) + FileSlice(blocks, d, off + m, k) == FileSlice(blocks, d, off, m + k)
  {
  }

  lemma SliceOfBlock(blocks: seq<Block>, d: Dinode, off: nat, m: nat)
    requires DinodeOk(d) && off + m <= MAXFILE * BSIZE && 0 < m && off % BSIZE + m <= BSIZE
    requires 0 < FileBlock(blocks, d, off / BSIZE) < |blocks|
    ensures blocks[FileBlock(blocks, d, off / BSIZE)][off % BSIZE..off % BSIZE + m] == FileSlice(blocks, d, off, m)
  {
  }

  /** memmove of part into a block at offset o. */
  function Patch(b: Block, o: nat, part: seq<Byte>): (r: Block)
    requires o + |part| <= BSIZE
    ensures forall k :: 0 <= k < BSIZE ==> r[k] == if o <= k < o + |part| then part[k - o] else b[k]
  {
    b[..o] + part + b[o + |part|..]
  }

  /** A patch of one block of a file, byte by byte. */
  lemma PatchBytes(b0: seq<Block>, d0: Dinode, b1: seq<Block>, d1: Dinode, b2: seq<Block>, b: nat, off: nat, src: seq<Byte>, lo: nat, hi: nat)
    requires DinodeOk(d0) && DinodeOk(d1) && lo < hi <= |src| && off + hi <= MAXFILE * BSIZE && (off + lo) % BSIZE + (hi - lo) <= BSIZE
    requires 0 < b < |b1| && FileBlock(b1, d1, (off + lo) / BSIZE) == b
    requires forall x: nat :: x < MAXFILE * BSIZE ==> FileByte(b1, d1, x) == FileByte(b0, d0, x)
    requires forall x: nat :: x < MAXFILE * BSIZE ==>
               FileByte(b2, d1, x) == if x / BSIZE == (off + lo) / BSIZE then Patch(b1[b], (off + lo) % BSIZE, src[lo..hi])[x % BSIZE]
                                      else FileByte(b1, d1, x)
    ensures forall x: nat :: x < MAXFILE * BSIZE ==>
              FileByte(b2, d1, x) == if off + lo <= x < off + hi then src[x - off] else FileByte(b0, d0, x)
  {
  }

  /** bmap followed by a patch of the block it returned. */
  lemma PatchWrites(g: Geometry, b0: seq<Block>, e0: seq<Dinode>, b1: seq<Block>, e1: seq<Dinode>,
                    owner: map<nat, (nat, nat)>, extra: set<nat>, i: nat, off: nat, src: seq<Byte>, lo: nat, hi: nat)
    requires InodesOk(g, e0) && Own(g, b1, e1, owner, extra) && i < |e0| && lo < hi <= |src| && off + hi <= MAXFILE * BSIZE
    requires Grown(g, b0, e0, b1, e1, i) && FileBlock(b1, e1[i], (off + lo) / BSIZE) != 0
    requires (off + lo) % BSIZE + (hi - lo) <= BSIZE
    requires forall c: nat :: c < g.bmapstart && c < |b0| ==> b1[c] == b0[c]
    ensures var b := FileBlock(b1, e1[i], (off + lo) / BSIZE);
            g.datastart <= b < |b1|
            && var b2 := b1[b := Patch(b1[b], (off + lo) % BSIZE, src[lo..hi])];
               && Own(g, b2, e1, owner, extra) && Written(g, b0, e0, b2, e1, i, off, src, lo, hi)
               && FileBlock(b2, e1[i], (off + lo) / BSIZE) == b
  {
    var bn, o := (off + lo) / BSIZE, (off + lo) % BSIZE;
    var b := FileBlock(b1, e1[i], bn);
    assert RefBlock(b1, e1[i], SlotOf(bn)) == b;
    var data := Patch(b1[b], o, src[lo..hi]);
    WriteFileBlock(g, b1, e1, owner, extra, i, bn, data);
    hide BitsOk, OwnedOk, RefsOk, Grown;
    PatchedFiles(g, b0, e0, b1, e1, i, off, src, lo, hi, b);
  }

  lemma PatchedFiles(g: Geometry, b0: seq<Block>, e0: seq<Dinode>, b1: seq<Block>, e1: seq<Dinode>,
                     i: nat, off: nat, src: seq<Byte>, lo: nat, hi: nat, b: nat)
    requires InodesOk(g, e0) && InodesOk(g, e1) && i < |e0| && lo < hi <= |src| && off + hi <= MAXFILE * BSIZE
    requires Grown(g, b0, e0, b1, e1, i) && 0 < b == FileBlock(b1, e1[i], (off + lo) / BSIZE) < |b1|
    requires (off + lo) % BSIZE + (hi - lo) <= BSIZE && g.bmapstart <= b
    requires forall c: nat :: c < g.bmapstart && c < |b0| ==> b1[c] == b0[c]
    requires var b2 := b1[b := Patch(b1[b], (off + lo) % BSIZE, src[lo..hi])];
             && SameRefs(b1, e1, b2) && SameOtherFiles(g, b1, e1, b2, e1, i)
             && (forall x: nat :: x < MAXFILE * BSIZE ==>
                   FileByte(b2, e1[i], x) == if x / BSIZE == (off + lo) / BSIZE then b2[b][x % BSIZE] else FileByte(b1, e1[i], x))
    ensures Written(g, b0, e0, b1[b := Patch(b1[b], (off + lo) % BSIZE, src[lo..hi])], e1, i, off, src, lo, hi)
  {
    var b2 := b1[b := Patch(b1[b], (off + lo) % BSIZE, src[lo..hi])];
    PatchBytes(b0, e0[i], b1, e1[i], b2, b, off, src, lo, hi);
    forall j: nat, x: nat | j < |e0| && j != i && x < MAXFILE * BSIZE
      ensures FileByte(b2, e1[j], x) == FileByte(b0, e0[j], x)
    {
      assert FileByte(b1, e1[j], x) == FileByte(b0, e0[j], x);
    }
  }

  // ---------------------------------------------------------------- log space of a write

  /** Number of file blocks the byte range [off, off + n) touches. */
  function Span(off: nat, n: nat): (k: nat) {
    if n == 0 then 0 else (off + n - 1) / BSIZE - off / BSIZE + 1
  }

  /** Bound on how many of them did not exist when the file held size bytes. */
  function Fresh(size: nat, off: nat, n: nat): (k: nat) {
    var last := if n == 0 then 0 else (off + n - 1) / BSIZE + 1;
    var have := (size + BSIZE - 1) / BSIZE;
    if last <= have then 0 else last - have
  }

  /** Processing the next block of the range adds one touched block, and one new block
      if the block lies past the old size. */
  lemma SpanNext(size: nat, off: nat, tot: nat, m: nat)
    requires 0 < m && (off + tot) % BSIZE + m <= BSIZE && (tot == 0 || (off + tot) % BSIZE == 0) && off <= size
    ensures Span(off, tot + m) == Span(off, tot) + 1
    ensures (off + tot) / BSIZE * BSIZE >= size ==> Fresh(size, off, tot + m) == Fresh(size, off, tot) + 1
    ensures Fresh(size, off, tot + m) >= Fresh(size, off, tot)
  {
  }

  lemma UnionCard(a: set<nat>, b: set<nat>)
    ensures |a + b| <= |a| + |b|
  {
  }

  /** The blocks logged by a write: data blocks, free-map blocks, indirect block, inode block. */
  lemma LoggedCard(before: set<nat>, after: set<nat>, data: set<nat>, maps: set<nat>, ind: set<nat>, inode: set<nat>)
    requires after <= before + data + maps + ind + inode
    ensures |after - before| <= |data| + |maps| + |ind| + |inode|
  {
    UnionCard(data, maps);
    UnionCard(data + maps, ind);
    UnionCard(data + maps + ind, inode);
    SubsetCard(after - before, data + maps + ind + inode);
  }

  lemma {:induction false} SubsetCard(a: set<nat>, b: set<nat>)
    requires a <= b
    ensures |a| <= |b|
    decreases a
  {
    if a != {} {
      var x :| x in a;
      SubsetCard(a - {x}, b - {x});
    }
  }

  /** What a partly done write has allocated: nothing it cannot account for.  Blocks
      exist up to the larger of the old size and the bytes written, and references
      changed only if the file has already grown. */
  ghost predicate Progress(blocks: seq<Block>, d: Dinode, d0: Dinode, end: nat)
    requires DinodeOk(d) && DinodeOk(d0)
  {
    && (forall bn: nat :: bn < MAXFILE && (bn * BSIZE < d0.size || bn * BSIZE < end) ==> FileBlock(blocks, d, bn) != 0)
    && (d == d0 || end > d0.size)
  }

  lemma ProgressNext(b0: seq<Block>, e0: seq<Dinode>, b1: seq<Block>, e1: seq<Dinode>, i: nat, d0: Dinode, off: nat, m: nat)
    requires |e0| == |e1| && i < |e0| && forall j :: 0 <= j < |e0| ==> DinodeOk(e0[j]) && DinodeOk(e1[j])
    requires DinodeOk(d0) && Progress(b0, e0[i], d0, off) && KeptRefs(b0, e0, b1, e1)
    requires 0 < m && off % BSIZE + m <= BSIZE && off + m <= MAXFILE * BSIZE
    requires FileBlock(b1, e1[i], off / BSIZE) != 0
    requires FileBlock(b0, e0[i], off / BSIZE) != 0 ==> e1[i] == e0[i]
    ensures Progress(b1, e1[i], d0, off + m)
    ensures FileBlock(b0, e0[i], off / BSIZE) == 0 ==> off / BSIZE * BSIZE >= d0.size
  {
    forall bn: nat | bn < MAXFILE && (bn * BSIZE < d0.size || bn * BSIZE < off + m)
      ensures FileBlock(b1, e1[i], bn) != 0
    {
      if bn != off / BSIZE {
        assert FileBlock(b0, e0[i], bn) == RefBlock(b0, e0[i], SlotOf(bn)) != 0;
        assert FileBlock(b1, e1[i], bn) == RefBlock(b1, e1[i], SlotOf(bn));
      }
    }
  }

  /** Bytes handled by the next iteration of the loops in readi and writei. */
  function Chunk(off: nat, tot: nat, n: nat): (m: nat)
    requires tot < n
    ensures 0 < m && (off + tot) % BSIZE + m <= BSIZE && tot + m <= n
    ensures tot + m == n || (off + tot + m) % BSIZE == 0
  {
    var left := BSIZE - (off + tot) % BSIZE;
    assert (off + tot + left) % BSIZE == 0;
    if n - tot < left then n - tot else left
  }

  /** The log record of a partly done write: data blocks, free-map blocks and the
      indirect block, within bounds. */
  ghost predicate Accounted(before: set<nat>, now: set<nat>, d0: Dinode, d: Dinode, off: nat, tot: nat,
                            data: set<nat>, maps: set<nat>, gained: nat)
    requires DinodeOk(d)
  {
    && now <= before + data + maps + IndirectOf(d)
    && |data| <= Span(off, tot) && |maps| <= Fresh(d0.size, off, tot) + gained
    && gained <= 1 && (gained == 1 ==> d.addrs[NDIRECT] != 0)
  }

  /** Before writei's loop. */
  lemma WriteStart(g: Geometry, blocks: seq<Block>, eff: seq<Dinode>, i: nat, off: nat, src: seq<Byte>, logged: set<nat>)
    requires InodesOk(g, eff) && i < |eff| && Dense(blocks, eff[i]) && off <= eff[i].size
    ensures Written(g, blocks, eff, blocks, eff, i, off, src, 0, 0) && Progress(blocks, eff[i], eff[i], off)
    ensures Accounted(logged, logged, eff[i], eff[i], off, 0, {}, {}, 0) && Touched(blocks, eff[i], eff[i], off, 0, logged)
  {
  }

  lemma AccountedNext(before: set<nat>, l1: set<nat>, l2: set<nat>, d0: Dinode, d1: Dinode, d2: Dinode,
                      off: nat, tot: nat, m: nat, data: set<nat>, maps: set<nat>, gained: nat,
                      addr: nat, more: set<nat>, fresh': bool)
    requires DinodeOk(d1) && DinodeOk(d2) && Accounted(before, l1, d0, d1, off, tot, data, maps, gained)
    requires 0 < m && (off + tot) % BSIZE + m <= BSIZE && (tot == 0 || (off + tot) % BSIZE == 0) && off <= d0.size
    requires l2 <= l1 + more + {addr} + IndirectOf(d2)
    requires d1.addrs[NDIRECT] != 0 ==> d2.addrs[NDIRECT] == d1.addrs[NDIRECT]
    requires |more| <= (if fresh' then 1 else 0) + (if d1.addrs[NDIRECT] == 0 && d2.addrs[NDIRECT] != 0 then 1 else 0)
    requires fresh' ==> (off + tot) / BSIZE * BSIZE >= d0.size
    ensures Accounted(before, l2, d0, d2, off, tot + m, data + {addr}, maps + more,
                      if d1.addrs[NDIRECT] == 0 && d2.addrs[NDIRECT] != 0 then 1 else gained)
  {
    SpanNext(d0.size, off, tot, m);
    UnionCard(data, {addr});
    UnionCard(maps, more);
  }

  /** What one iteration of writei's loop promises of the disk and the inode. */
  ghost predicate Stepped(g: Geometry, b1: seq<Block>, e1: seq<Dinode>, b2: seq<Block>, e2: seq<Dinode>,
                          i: nat, off: nat, src: seq<Byte>, lo: nat, hi: nat)
    requires InodesOk(g, e1) && InodesOk(g, e2) && i < |e1| && lo < hi <= |src| && off + hi <= MAXFILE * BSIZE
  {
    && Written(g, b1, e1, b2, e2, i, off, src, lo, hi)
    && FileBlock(b2, e2[i], (off + lo) / BSIZE) != 0
    && (FileBlock(b1, e1[i], (off + lo) / BSIZE) != 0 ==> e2[i] == e1[i])
  }

  lemma StepProgress(g: Geometry, b1: seq<Block>, e1: seq<Dinode>, b2: seq<Block>, e2: seq<Dinode>,
                     i: nat, d0: Dinode, off: nat, src: seq<Byte>, lo: nat, hi: nat)
    requires InodesOk(g, e1) && InodesOk(g, e2) && i < |e1| && lo < hi <= |src| && off + hi <= MAXFILE * BSIZE
    requires DinodeOk(d0) && Progress(b1, e1[i], d0, off + lo) && (off + lo) % BSIZE + (hi - lo) <= BSIZE
    requires Stepped(g, b1, e1, b2, e2, i, off, src, lo, hi)
    ensures Progress(b2, e2[i], d0, off + hi)
    ensures FileBlock(b1, e1[i], (off + lo) / BSIZE) == 0 ==> (off + lo) / BSIZE * BSIZE >= d0.size
    ensures e1[i].addrs[NDIRECT] != 0 ==> e2[i].addrs[NDIRECT] == e1[i].addrs[NDIRECT]
  {
    ProgressNext(b1, e1, b2, e2, i, d0, off + lo, hi - lo);
    assert RefBlock(b2, e2[i], NDIRECT) == e2[i].addrs[NDIRECT] && RefBlock(b1, e1[i], NDIRECT) == e1[i].addrs[NDIRECT];
  }

  // ---------------------------------------------------------------- contents

  /** The byte sequence a file stands for. */
  function Content(blocks: seq<Block>, d: Dinode): (r: seq<Byte>)
    requires DinodeOk(d) && d.size <= MAXFILE * BSIZE
    ensures |r| == d.size
  {
    FileSlice(blocks, d, 0, d.size)
  }

  /** c with s written at offset off, extended if s reaches past the end. */
  function Splice(c: seq<Byte>, off: nat, s: seq<Byte>): (r: seq<Byte>)
    requires off <= |c|
    ensures |r| == if off + |s| > |c| then off + |s| else |c|
  {
    c[..off] + s + if off + |s| <= |c| then c[off + |s|..] else []
  }

  lemma WrittenIsSplice(g: Geometry, b0: seq<Block>, e0: seq<Dinode>, b1: seq<Block>, e1: seq<Dinode>,
                        i: nat, off: nat, src: seq<Byte>, size: Word)
    requires InodesOk(g, e0) && InodesOk(g, e1) && i < |e0|
    requires Written(g, b0, e0, b1, e1, i, off, src, 0, |src|)
    requires off <= e0[i].size <= MAXFILE * BSIZE && off + |src| <= MAXFILE * BSIZE
    requires size == if off + |src| > e0[i].size then off + |src| else e0[i].size
    ensures Content(b1, e1[i].(size := size)) == Splice(Content(b0, e0[i]), off, src)
  {
    var got, want := Content(b1, e1[i].(size := size)), Splice(Content(b0, e0[i]), off, src);
    forall x: nat | x < size ensures got[x] == want[x] {
      assert got[x] == FileByte(b1, e1[i].(size := size), x) == FileByte(b1, e1[i], x);
    }
  }

  /** No file depends on what is in the inode blocks. */
  lemma InodeBlockFiles(g: Geometry, blocks: seq<Block>, eff: seq<Dinode>, owner: map<nat, (nat, nat)>, extra: set<nat>,
                        b: nat, data: Block)
    requires Own(g, blocks, eff, owner, extra) && 0 < b < g.bmapstart && b < |blocks|
    ensures SameFiles(g, blocks, eff, blocks[b := data], eff)
  {
    hide BitsOk;
    WriteKeepsOwn(g, blocks, eff, owner, extra, b, data);
    forall j: nat, x: nat | j < |eff| && x < MAXFILE * BSIZE
      ensures FileByte(blocks[b := data], eff[j], x) == FileByte(blocks, eff[j], x)
    {
      assert RefBlock(blocks, eff[j], SlotOf(x / BSIZE)) == FileBlock(blocks, eff[j], x / BSIZE);
      assert RefBlock(blocks[b := data], eff[j], SlotOf(x / BSIZE)) == FileBlock(blocks[b := data], eff[j], x / BSIZE);
      WriteElsewhere(blocks, eff[j], b, data, x);
    }
  }

  /** The size field plays no part in ownership or in what each offset reads. */
  lemma ResizeKeeps(g: Geometry, blocks: seq<Block>, eff: seq<Dinode>, owner: map<nat, (nat, nat)>, extra: set<nat>,
                    i: nat, d: Dinode)
    requires Own(g, blocks, eff, owner, extra) && i < |eff| && DinodeOk(d) && d.addrs == eff[i].addrs
    ensures Own(g, blocks, eff[i := d], owner, extra) && SameFiles(g, blocks, eff, blocks, eff[i := d])
    ensures forall s: nat :: s < SLOTS ==> RefBlock(blocks, d, s) == RefBlock(blocks, eff[i], s)
  {
    var eff' := eff[i := d];
    forall j: nat, s: nat | j < |eff| && s < SLOTS ensures RefBlock(blocks, eff'[j], s) == RefBlock(blocks, eff[j], s) {
    }
    forall j: nat, x: nat | j < |eff| && x < MAXFILE * BSIZE
      ensures FileByte(blocks, eff'[j], x) == FileByte(blocks, eff[j], x)
    {
    }
  }

  lemma ProgressIsDense(blocks: seq<Block>, d: Dinode, d0: Dinode, end: nat, size: Word)
    requires DinodeOk(d) && DinodeOk(d0) && Progress(blocks, d, d0, end) && end <= MAXFILE * BSIZE
    requires d0.size <= MAXFILE * BSIZE && size == if end > d0.size then end else d0.size
    ensures Dense(blocks, d.(size := size))
  {
    forall bn: nat | bn < MAXFILE && bn * BSIZE < size ensures FileBlock(blocks, d.(size := size), bn) != 0 {
      assert FileBlock(blocks, d, bn) != 0;
    }
  }

  /** The most blocks one call of writei logs: data, free-map, indirect, inode. */
  function WriteCost(size: nat, off: nat, n: nat): (k: nat) {
    Span(off, n) + Fresh(size, off, n) + 3
  }

  /** filewrite's chunks of at most 3 * 512 bytes stay within MAXOPBLOCKS = 10. */
  lemma ChunkWithinBudget(size: nat, off: nat, n: nat)
    requires off <= size && n <= 3 * BSIZE
    ensures WriteCost(size, off, n) <= 10
  {
  }

  /** Nothing was changed without being logged. */
  ghost predicate Logs(b0: seq<Block>, b1: seq<Block>, l0: set<nat>, l1: set<nat>) {
    |b1| == |b0| && l0 <= l1 && forall c: nat :: c < |b0| && b1[c] != b0[c] ==> c in l1
  }

  lemma LogsSame(b: seq<Block>, l: set<nat>)
    ensures Logs(b, b, l, l)
  {
  }

  lemma LogsTrans(b0: seq<Block>, b1: seq<Block>, b2: seq<Block>, l0: set<nat>, l1: set<nat>, l2: set<nat>)
    requires Logs(b0, b1, l0, l1) && Logs(b1, b2, l1, l2)
    ensures Logs(b0, b2, l0, l2) && l1 <= l2
  {
  }

  /** The free-map blocks of a set of blocks. */
  function MapsOf(g: Geometry, bs: set<nat>): (r: set<nat>) {
    set b <- bs :: BBlock(g, b)
  }

  /** Exactly the free-map blocks of bs were logged, and nothing else was changed. */
  ghost predicate FreedLog(g: Geometry, b0: seq<Block>, b1: seq<Block>, l0: set<nat>, l1: set<nat>, bs: set<nat>) {
    Logs(b0, b1, l0, l1) && l1 == l0 + MapsOf(g, bs) && forall c: nat :: c < |b0| && b1[c] != b0[c] ==> c in MapsOf(g, bs)
  }

  lemma FreedNone(g: Geometry, b: seq<Block>, l: set<nat>)
    ensures FreedLog(g, b, b, l, l, {})
  {
  }

  lemma FreedOne(g: Geometry, b0: seq<Block>, l0: set<nat>, b: nat, data: Block)
    requires BBlock(g, b) < |b0|
    ensures FreedLog(g, b0, b0[BBlock(g, b) := data], l0, l0 + {BBlock(g, b)}, {b})
  {
    assert MapsOf(g, {b}) == {BBlock(g, b)};
  }

  lemma FreedMore(g: Geometry, b0: seq<Block>, b1: seq<Block>, b2: seq<Block>, l0: set<nat>, l1: set<nat>, l2: set<nat>,
                  bs: set<nat>, more: set<nat>)
    requires FreedLog(g, b0, b1, l0, l1, bs) && FreedLog(g, b1, b2, l1, l2, more)
    ensures FreedLog(g, b0, b2, l0, l2, bs + more)
  {
    assert MapsOf(g, bs + more) == MapsOf(g, bs) + MapsOf(g, more);
  }

  /** The blocks of the range [off, off + tot) are logged, and so is an indirect block that d
      has and d0 had not. */
  ghost predicate Touched(blocks: seq<Block>, d0: Dinode, d: Dinode, off: nat, tot: nat, logged: set<nat>)
    requires DinodeOk(d0) && DinodeOk(d)
  {
    && (d0.addrs[NDIRECT] == 0 && d.addrs[NDIRECT] != 0 ==> d.addrs[NDIRECT] in logged)
    && (forall bn: nat :: bn < MAXFILE && off / BSIZE <= bn && bn * BSIZE < off + tot && tot > 0 ==> FileBlock(blocks, d, bn) in logged)
  }

  lemma TouchedNext(g: Geometry, b1: seq<Block>, e1: seq<Dinode>, b2: seq<Block>, e2: seq<Dinode>, i: nat, d0: Dinode,
                    off: nat, src: seq<Byte>, tot: nat, m: nat, l1: set<nat>, l2: set<nat>)
    requires InodesOk(g, e1) && InodesOk(g, e2) && i < |e1| && DinodeOk(d0) && 0 < m && tot + m <= |src| && off + tot + m <= MAXFILE * BSIZE
    requires Stepped(g, b1, e1, b2, e2, i, off, src, tot, tot + m) && l1 <= l2
    requires Touched(b1, d0, e1[i], off, tot, l1) && Progress(b1, e1[i], d0, off + tot)
    requires (off + tot) % BSIZE + m <= BSIZE && (tot == 0 || (off + tot) % BSIZE == 0)
    requires FileBlock(b2, e2[i], (off + tot) / BSIZE) in l2
    requires e1[i].addrs[NDIRECT] == 0 && e2[i].addrs[NDIRECT] != 0 ==> e2[i].addrs[NDIRECT] in l2
    ensures Touched(b2, d0, e2[i], off, tot + m, l2)
  {
    assert RefBlock(b2, e2[i], NDIRECT) == e2[i].addrs[NDIRECT] && RefBlock(b1, e1[i], NDIRECT) == e1[i].addrs[NDIRECT];
    forall bn: nat | bn < MAXFILE && off / BSIZE <= bn && bn * BSIZE < off + tot + m ensures FileBlock(b2, e2[i], bn) in l2 {
      if bn != (off + tot) / BSIZE {
        assert tot > 0 && bn * BSIZE < off + tot;
        assert FileBlock(b1, e1[i], bn) != 0;
        assert RefBlock(b2, e2[i], SlotOf(bn)) == RefBlock(b1, e1[i], SlotOf(bn));
      }
    }
  }

  /** The new size changes none of that. */
  lemma TouchedResized(g: Geometry, b1: seq<Block>, e1: seq<Dinode>, b2: seq<Block>, e2: seq<Dinode>, i: nat, d0: Dinode,
                       off: nat, n: nat, size: Word, l1: set<nat>, l2: set<nat>)
    requires InodesOk(g, e1) && InodesOk(g, e2) && i < |e1| && DinodeOk(d0) && off + n <= MAXFILE * BSIZE
    requires Resized(g, b1, e1, b2, e2, i, size) && l1 <= l2 && Touched(b1, d0, e1[i], off, n, l1) && Progress(b1, e1[i], d0, off + n)
    ensures Touched(b2, d0, e2[i], off, n, l2)
  {
    forall bn: nat | bn < MAXFILE && off / BSIZE <= bn && bn * BSIZE < off + n && n > 0 ensures FileBlock(b2, e2[i], bn) in l2 {
      assert FileBlock(b1, e1[i], bn) != 0;
      assert RefBlock(b2, e2[i], SlotOf(bn)) == RefBlock(b1, e1[i], SlotOf(bn));
    }
  }

  // ---------------------------------------------------------------- blocks allocated by a write

  function NewBlock(b: nat): (n: nat) { if b == 0 then 1 else 0 }

  /** Whether d has an indirect block and d0 had none. */
  function NewIndirect(d0: Dinode, d: Dinode): (n: nat)
    requires DinodeOk(d0) && DinodeOk(d)
  {
    if d0.addrs[NDIRECT] == 0 && d.addrs[NDIRECT] != 0 then 1 else 0
  }

  /** A write of tot bytes has allocated no more than the blocks past the old end and the
      indirect block. */
  ghost predicate Allocated(own0: map<nat, (nat, nat)>, own: map<nat, (nat, nat)>, d0: Dinode, d: Dinode, off: nat, tot: nat)
    requires DinodeOk(d0) && DinodeOk(d)
  {
    && |own| <= |own0| + Fresh(d0.size, off, tot) + NewIndirect(d0, d)
    && (d0.addrs[NDIRECT] != 0 ==> d.addrs[NDIRECT] != 0)
  }

  lemma AllocatedNone(own: map<nat, (nat, nat)>, d: Dinode, off: nat)
    requires DinodeOk(d)
    ensures Allocated(own, own, d, d, off, 0)
  {
  }

  lemma AllocatedNext(own0: map<nat, (nat, nat)>, own1: map<nat, (nat, nat)>, own2: map<nat, (nat, nat)>, b1: seq<Block>,
                      d0: Dinode, d1: Dinode, d2: Dinode, off: nat, tot: nat, m: nat)
    requires DinodeOk(d0) && DinodeOk(d1) && DinodeOk(d2) && off <= d0.size && off + tot + m <= MAXFILE * BSIZE
    requires 0 < m && (off + tot) % BSIZE + m <= BSIZE && (tot == 0 || (off + tot) % BSIZE == 0)
    requires Allocated(own0, own1, d0, d1, off, tot) && Progress(b1, d1, d0, off + tot)
    requires |own2| <= |own1| + NewBlock(FileBlock(b1, d1, (off + tot) / BSIZE)) + NewIndirect(d1, d2)
    requires d1.addrs[NDIRECT] != 0 ==> d2.addrs[NDIRECT] == d1.addrs[NDIRECT]
    ensures Allocated(own0, own2, d0, d2, off, tot + m)
  {
    SpanNext(d0.size, off, tot, m);
  }

  /** A turn that found no free block has used up no more than the others needed. */
  lemma AllocatedFail(own0: map<nat, (nat, nat)>, own1: map<nat, (nat, nat)>, own2: map<nat, (nat, nat)>, b1: seq<Block>,
                      d0: Dinode, d1: Dinode, off: nat, tot: nat, m: nat, n: nat)
    requires DinodeOk(d0) && DinodeOk(d1) && off <= d0.size && tot + m <= n && off + n <= MAXFILE * BSIZE
    requires 0 < m && (off + tot) % BSIZE + m <= BSIZE && (tot == 0 || (off + tot) % BSIZE == 0)
    requires Allocated(own0, own1, d0, d1, off, tot) && Progress(b1, d1, d0, off + tot)
    requires FileBlock(b1, d1, (off + tot) / BSIZE) == 0 && |own2| <= |own1| + NewBlock(d1.addrs[NDIRECT])
    ensures |own2| <= |own0| + Fresh(d0.size, off, n)
  {
    SpanNext(d0.size, off, tot, m);
  }

  // ---------------------------------------------------------------- writei's loop

  /** What the loop changes: the blocks, the inodes, who owns what, and what was logged. */
  datatype Snapshot = Snapshot(blocks: seq<Block>, eff: seq<Dinode>, owner: map<nat, (nat, nat)>, logged: set<nat>)

  /** Owned blocks stay owned, and what changed on the way from s to t is in the free map, the
      inode block of i, or a block that i owns in the end. */
  ghost predicate Grows(g: Geometry, s: Snapshot, t: Snapshot, i: nat) {
    && |t.blocks| == |s.blocks| && (forall c <- s.owner :: c in t.owner && t.owner[c] == s.owner[c])
    && forall c: nat :: c < |s.blocks| && t.blocks[c] != s.blocks[c] ==>
         g.bmapstart <= c < g.datastart || c == IBlock(g, i) || (c in t.owner && t.owner[c].0 == i)
  }

  lemma GrowsSame(g: Geometry, s: Snapshot, t: Snapshot, i: nat)
    requires t.blocks == s.blocks && t.owner == s.owner
    ensures Grows(g, s, t, i)
  {
  }

  lemma GrowsTrans(g: Geometry, s: Snapshot, t: Snapshot, u: Snapshot, i: nat)
    requires Grows(g, s, t, i) && Grows(g, t, u, i)
    ensures Grows(g, s, u, i)
  {
  }

  /** One more block b of inode i, with a change to its free-map block. */
  lemma GrowsBlock(g: Geometry, s: Snapshot, t: Snapshot, i: nat, slot: nat, b: nat)
    requires |t.blocks| == |s.blocks| && b < g.size && b !in s.owner && t.owner == s.owner[b := (i, slot)]
    requires g.bmapstart <= BBlock(g, b) < g.datastart
    requires forall c: nat :: c < |s.blocks| && t.blocks[c] != s.blocks[c] ==> c == BBlock(g, b) || c == b
    ensures Grows(g, s, t, i)
  {
  }

  /** A block of inode i was overwritten. */
  lemma GrowsWrite(g: Geometry, s: Snapshot, t: Snapshot, i: nat, b: nat, data: Block)
    requires b < |s.blocks| && t.blocks == s.blocks[b := data] && t.owner == s.owner && b in s.owner && s.owner[b].0 == i
    ensures Grows(g, s, t, i)
  {
  }

  /** The same, with the indirect block changed afterwards. */
  lemma GrowsEntry(g: Geometry, s: Snapshot, b1: seq<Block>, t: Snapshot, i: nat, slot: nat, b: nat, ind: nat, data: Block)
    requires |b1| == |s.blocks| && b < g.size && b !in s.owner && t.owner == s.owner[b := (i, slot)] && g.bmapstart <= BBlock(g, b) < g.datastart
    requires ind < |b1| && t.blocks == b1[ind := data] && ind in s.owner && s.owner[ind].0 == i
    requires forall c: nat :: c < |s.blocks| && b1[c] != s.blocks[c] ==> c == BBlock(g, b) || c == b
    ensures Grows(g, s, t, i)
  {
  }

  lemma RefOwned(g: Geometry, blocks: seq<Block>, eff: seq<Dinode>, owner: map<nat, (nat, nat)>, extra: set<nat>, i: nat, s: nat)
    requires Own(g, blocks, eff, owner, extra) && i < |eff| && s < SLOTS && RefBlock(blocks, eff[i], s) != 0
    ensures RefBlock(blocks, eff[i], s) in owner && owner[RefBlock(blocks, eff[i], s)] == (i, s)
  {
    hide BitsOk, OwnedOk;
  }

  lemma MapInRange(g: Geometry, blocks: seq<Block>, b: nat)
    requires GeometryOk(g, |blocks|) && b < g.size
    ensures g.bmapstart <= BBlock(g, b) < g.datastart
  {
  }

  /** One turn of the loop, which wrote bytes lo..hi of src, led from s to t; addr is the data
      block and maps the free-map blocks it logged. */
  ghost predicate PartDone(g: Geometry, s: Snapshot, t: Snapshot, i: nat, off: nat, src: seq<Byte>, lo: nat, hi: nat,
                           addr: nat, maps: set<nat>)
    requires InodesOk(g, s.eff) && InodesOk(g, t.eff) && i < |s.eff| && lo < hi <= |src| && off + hi <= MAXFILE * BSIZE
  {
    var bn := (off + lo) / BSIZE;
    var gains := NewBlock(FileBlock(s.blocks, s.eff[i], bn)) + NewIndirect(s.eff[i], t.eff[i]);
    && Stepped(g, s.blocks, s.eff, t.blocks, t.eff, i, off, src, lo, hi) && Logs(s.blocks, t.blocks, s.logged, t.logged)
    && t.logged <= s.logged + maps + {addr} + IndirectOf(t.eff[i]) && |maps| <= gains && |t.owner| <= |s.owner| + gains
    && FileBlock(t.blocks, t.eff[i], bn) in t.logged
    && (NewIndirect(s.eff[i], t.eff[i]) == 1 ==> t.eff[i].addrs[NDIRECT] in t.logged)
  }

  /** How many blocks inode i gained so that slot refers to one. */
  function Gain(s: Snapshot, t: Snapshot, i: nat, slot: nat): (n: nat)
    requires i < |s.eff| && i < |t.eff| && DinodeOk(s.eff[i]) && DinodeOk(t.eff[i]) && slot < SLOTS
  {
    NewIndirect(s.eff[i], t.eff[i]) + if slot == NDIRECT then 0 else NewBlock(RefBlock(s.blocks, s.eff[i], slot))
  }

  /** bmap led from s to t: slot of inode i refers to addr, all files read as before, what was
      logged are the free-map blocks maps, addr and the indirect block, and nothing else was
      changed. */
  ghost predicate BlockGot(g: Geometry, s: Snapshot, t: Snapshot, i: nat, slot: nat, addr: nat, maps: set<nat>)
    requires InodesOk(g, s.eff) && InodesOk(g, t.eff) && i < |s.eff| && slot < SLOTS
  {
    && Grown(g, s.blocks, s.eff, t.blocks, t.eff, i) && 0 < addr == RefBlock(t.blocks, t.eff[i], slot)
    && Logs(s.blocks, t.blocks, s.logged, t.logged) && Grows(g, s, t, i)
    && (forall c: nat :: c < g.bmapstart && c < |s.blocks| ==> t.blocks[c] == s.blocks[c])
    && t.logged <= s.logged + maps + {addr} + IndirectOf(t.eff[i])
    && (NewIndirect(s.eff[i], t.eff[i]) == 1 ==> t.eff[i].addrs[NDIRECT] in t.logged)
    && |maps| <= Gain(s, t, i, slot) && |t.owner| <= |s.owner| + Gain(s, t, i, slot)
  }

  lemma GotGrows(g: Geometry, s: Snapshot, t: Snapshot, i: nat, slot: nat, addr: nat, maps: set<nat>)
    requires InodesOk(g, s.eff) && InodesOk(g, t.eff) && i < |s.eff| && slot < SLOTS && BlockGot(g, s, t, i, slot, addr, maps)
    ensures Grows(g, s, t, i)
  {
  }

  /** What the caller of bmap relies on. */
  lemma GotSo(g: Geometry, s: Snapshot, t: Snapshot, i: nat, slot: nat, addr: nat, maps: set<nat>)
    requires InodesOk(g, s.eff) && InodesOk(g, t.eff) && i < |s.eff| && slot < SLOTS && BlockGot(g, s, t, i, slot, addr, maps)
    ensures Grown(g, s.blocks, s.eff, t.blocks, t.eff, i) && 0 < addr == RefBlock(t.blocks, t.eff[i], slot) && Grows(g, s, t, i)
    ensures forall c: nat :: c < g.bmapstart && c < |s.blocks| ==> t.blocks[c] == s.blocks[c]
  {
    hide Grown, Grows;
  }

  lemma GotSame(g: Geometry, s: Snapshot, i: nat, slot: nat)
    requires InodesOk(g, s.eff) && i < |s.eff| && slot < SLOTS && RefBlock(s.blocks, s.eff[i], slot) != 0
    ensures BlockGot(g, s, s, i, slot, RefBlock(s.blocks, s.eff[i], slot), {})
  {
    hide Grows, Logs, Grown;
    GrowsSame(g, s, s, i);
    LogsSame(s.blocks, s.logged);
    GrownSame(g, s.blocks, s.eff, i);
  }

  /** A new block in a direct slot, or as indirect block. */
  lemma GotAddr(g: Geometry, s: Snapshot, t: Snapshot, i: nat, slot: nat, addr: Word)
    requires InodesOk(g, s.eff) && InodesOk(g, t.eff) && i < |s.eff| && slot <= NDIRECT && s.eff[i].addrs[slot] == 0 && addr != 0
    requires t.eff == s.eff[i := SetAddr(s.eff[i], slot, addr)] && t.logged == s.logged + {BBlock(g, addr), addr}
    requires Grown(g, s.blocks, s.eff, t.blocks, t.eff, i) && Logs(s.blocks, t.blocks, s.logged, t.logged) && Grows(g, s, t, i)
    requires forall c: nat :: c < g.bmapstart && c < |s.blocks| ==> t.blocks[c] == s.blocks[c]
    requires |t.owner| <= |s.owner| + 1
    ensures BlockGot(g, s, t, i, slot, addr, {BBlock(g, addr)})
  {
    hide Grows, Logs, Grown;
  }

  /** A new block in an entry of the indirect block. */
  lemma GotEntry(g: Geometry, s: Snapshot, t: Snapshot, i: nat, j: nat, addr: nat)
    requires InodesOk(g, s.eff) && InodesOk(g, t.eff) && i < |s.eff| && j < NINDIRECT && s.eff[i].addrs[NDIRECT] != 0
    requires RefBlock(s.blocks, s.eff[i], NDIRECT + 1 + j) == 0 && 0 < addr == RefBlock(t.blocks, t.eff[i], NDIRECT + 1 + j)
    requires t.eff == s.eff && t.logged == s.logged + {BBlock(g, addr), addr, t.eff[i].addrs[NDIRECT]}
    requires Grown(g, s.blocks, s.eff, t.blocks, t.eff, i) && Logs(s.blocks, t.blocks, s.logged, t.logged) && Grows(g, s, t, i)
    requires forall c: nat :: c < g.bmapstart && c < |s.blocks| ==> t.blocks[c] == s.blocks[c]
    requires |t.owner| <= |s.owner| + 1
    ensures BlockGot(g, s, t, i, NDIRECT + 1 + j, addr, {BBlock(g, addr)})
  {
    hide Grows, Logs, Grown;
  }

  /** With the indirect block there, an entry that is in use needs no more ... */
  lemma GotThere(g: Geometry, s: Snapshot, t: Snapshot, i: nat, k: nat, ind: nat, maps: set<nat>)
    requires InodesOk(g, s.eff) && InodesOk(g, t.eff) && i < |s.eff| && k < NINDIRECT
    requires BlockGot(g, s, t, i, NDIRECT, ind, maps) && RefBlock(t.blocks, t.eff[i], NDIRECT + 1 + k) != 0
    ensures BlockGot(g, s, t, i, NDIRECT + 1 + k, RefBlock(t.blocks, t.eff[i], NDIRECT + 1 + k), maps)
  {
    hide Grows, Logs, Grown;
  }

  /** ... and one that is not gets a block. */
  lemma GotBoth(g: Geometry, s: Snapshot, t: Snapshot, u: Snapshot, i: nat, k: nat, ind: nat, addr: nat, maps: set<nat>, more: set<nat>)
    requires InodesOk(g, s.eff) && InodesOk(g, t.eff) && InodesOk(g, u.eff) && i < |s.eff| && k < NINDIRECT
    requires BlockGot(g, s, t, i, NDIRECT, ind, maps) && BlockGot(g, t, u, i, NDIRECT + 1 + k, addr, more) && u.eff == t.eff
    ensures BlockGot(g, s, u, i, NDIRECT + 1 + k, addr, maps + more)
  {
    GotRefs(g, s, t, i, k);
    hide Grows, Logs, Grown;
    GrownTrans(g, s.blocks, s.eff, t.blocks, t.eff, u.blocks, u.eff, i);
    LogsTrans(s.blocks, t.blocks, u.blocks, s.logged, t.logged, u.logged);
    GrowsTrans(g, s, t, u, i);
    UnionCard(maps, more);
  }

  lemma GotRefs(g: Geometry, s: Snapshot, t: Snapshot, i: nat, k: nat)
    requires InodesOk(g, s.eff) && InodesOk(g, t.eff) && i < |s.eff| && k < NINDIRECT
    requires Grown(g, s.blocks, s.eff, t.blocks, t.eff, i)
    ensures NewBlock(RefBlock(t.blocks, t.eff[i], NDIRECT + 1 + k)) <= NewBlock(RefBlock(s.blocks, s.eff[i], NDIRECT + 1 + k))
    ensures s.eff[i].addrs[NDIRECT] != 0 ==> t.eff[i].addrs[NDIRECT] == s.eff[i].addrs[NDIRECT]
  {
    assert RefBlock(t.blocks, t.eff[i], NDIRECT) == t.eff[i].addrs[NDIRECT];
  }

  /** The block was got, patched and logged. */
  lemma PartGot(g: Geometry, s: Snapshot, t: Snapshot, u: Snapshot, i: nat, off: nat, src: seq<Byte>, lo: nat, hi: nat,
                addr: nat, maps: set<nat>, data: Block)
    requires InodesOk(g, s.eff) && InodesOk(g, t.eff) && i < |s.eff| && lo < hi <= |src| && off + hi <= MAXFILE * BSIZE
    requires BlockGot(g, s, t, i, SlotOf((off + lo) / BSIZE), addr, maps) && addr < |t.blocks|
    requires u == Snapshot(t.blocks[addr := data], t.eff, t.owner, t.logged + {addr})
    requires RefBlock(s.blocks, s.eff[i], SlotOf((off + lo) / BSIZE)) != 0 ==> t.eff == s.eff
    requires Written(g, s.blocks, s.eff, u.blocks, u.eff, i, off, src, lo, hi) && FileBlock(u.blocks, u.eff[i], (off + lo) / BSIZE) == addr
    ensures PartDone(g, s, u, i, off, src, lo, hi, addr, maps)
  {
    hide Grown, Grows, Written;
  }

  /** A turn that found no free block led from s to t: at most the indirect block was
      allocated, and nothing was changed without being logged. */
  ghost predicate Stuck(s: Snapshot, t: Snapshot, i: nat, maps: set<nat>)
    requires i < |s.eff| && i < |t.eff| && DinodeOk(s.eff[i]) && DinodeOk(t.eff[i])
  {
    && Logs(s.blocks, t.blocks, s.logged, t.logged) && t.logged <= s.logged + maps + IndirectOf(t.eff[i])
    && |maps| <= NewBlock(s.eff[i].addrs[NDIRECT]) && |t.owner| <= |s.owner| + NewBlock(s.eff[i].addrs[NDIRECT])
    && (s.eff[i].addrs[NDIRECT] != 0 ==> t.eff[i].addrs[NDIRECT] == s.eff[i].addrs[NDIRECT])
  }

  lemma StuckSame(s: Snapshot, i: nat)
    requires i < |s.eff| && DinodeOk(s.eff[i])
    ensures Stuck(s, s, i, {})
  {
  }

  lemma StuckIndirect(g: Geometry, s: Snapshot, t: Snapshot, i: nat, ind: nat, maps: set<nat>)
    requires InodesOk(g, s.eff) && InodesOk(g, t.eff) && i < |s.eff| && BlockGot(g, s, t, i, NDIRECT, ind, maps)
    ensures Stuck(s, t, i, maps)
  {
    GotRefs(g, s, t, i, 0);
    hide Grows, Logs, Grown;
  }

  /** Where the loop stands after tot bytes, having started from s0. */
  ghost predicate Looping(g: Geometry, s0: Snapshot, s: Snapshot, i: nat, off: nat, src: seq<Byte>, tot: nat,
                          data: set<nat>, maps: set<nat>, gained: nat)
    requires InodesOk(g, s0.eff) && InodesOk(g, s.eff) && i < |s0.eff| && tot <= |src|
  {
    && Written(g, s0.blocks, s0.eff, s.blocks, s.eff, i, off, src, 0, tot)
    && Progress(s.blocks, s.eff[i], s0.eff[i], off + tot)
    && Accounted(s0.logged, s.logged, s0.eff[i], s.eff[i], off, tot, data, maps, gained)
    && Logs(s0.blocks, s.blocks, s0.logged, s.logged)
    && Touched(s.blocks, s0.eff[i], s.eff[i], off, tot, s.logged)
    && Allocated(s0.owner, s.owner, s0.eff[i], s.eff[i], off, tot)
  }

  lemma LoopStart(g: Geometry, s: Snapshot, i: nat, off: nat, src: seq<Byte>)
    requires InodesOk(g, s.eff) && i < |s.eff| && Dense(s.blocks, s.eff[i]) && off <= s.eff[i].size
    ensures Looping(g, s, s, i, off, src, 0, {}, {}, 0)
  {
    WriteStart(g, s.blocks, s.eff, i, off, src, s.logged);
    LogsSame(s.blocks, s.logged);
  }

  /** Whether a turn brought the file its indirect block. */
  function Gained(s: Snapshot, t: Snapshot, i: nat, gained: nat): nat
    requires i < |s.eff| && i < |t.eff| && DinodeOk(s.eff[i]) && DinodeOk(t.eff[i])
  {
    if s.eff[i].addrs[NDIRECT] == 0 && t.eff[i].addrs[NDIRECT] != 0 then 1 else gained
  }

  /** The disk after one more turn. */
  lemma LoopDisk(g: Geometry, s0: Snapshot, s: Snapshot, t: Snapshot, i: nat, off: nat, src: seq<Byte>, tot: nat, m: nat)
    requires InodesOk(g, s0.eff) && InodesOk(g, s.eff) && InodesOk(g, t.eff) && i < |s0.eff|
    requires tot + m <= |src| && off + tot + m <= MAXFILE * BSIZE
    requires 0 < m && (off + tot) % BSIZE + m <= BSIZE && (tot == 0 || (off + tot) % BSIZE == 0)
    requires Written(g, s0.blocks, s0.eff, s.blocks, s.eff, i, off, src, 0, tot)
    requires Progress(s.blocks, s.eff[i], s0.eff[i], off + tot) && Logs(s0.blocks, s.blocks, s0.logged, s.logged)
    requires Touched(s.blocks, s0.eff[i], s.eff[i], off, tot, s.logged)
    requires Stepped(g, s.blocks, s.eff, t.blocks, t.eff, i, off, src, tot, tot + m) && Logs(s.blocks, t.blocks, s.logged, t.logged)
    requires FileBlock(t.blocks, t.eff[i], (off + tot) / BSIZE) in t.logged
    requires s.eff[i].addrs[NDIRECT] == 0 && t.eff[i].addrs[NDIRECT] != 0 ==> t.eff[i].addrs[NDIRECT] in t.logged
    ensures Written(g, s0.blocks, s0.eff, t.blocks, t.eff, i, off, src, 0, tot + m)
    ensures Progress(t.blocks, t.eff[i], s0.eff[i], off + tot + m) && Logs(s0.blocks, t.blocks, s0.logged, t.logged)
    ensures Touched(t.blocks, s0.eff[i], t.eff[i], off, tot + m, t.logged)
    ensures FileBlock(s.blocks, s.eff[i], (off + tot) / BSIZE) == 0 ==> (off + tot) / BSIZE * BSIZE >= s0.eff[i].size
    ensures s.eff[i].addrs[NDIRECT] != 0 ==> t.eff[i].addrs[NDIRECT] == s.eff[i].addrs[NDIRECT]
  {
    hide Written, Progress, Touched, Logs, Stepped;
    SteppedWritten(g, s.blocks, s.eff, t.blocks, t.eff, i, off, src, tot, tot + m);
    LogsTrans(s0.blocks, s.blocks, t.blocks, s0.logged, s.logged, t.logged);
    StepProgress(g, s.blocks, s.eff, t.blocks, t.eff, i, s0.eff[i], off, src, tot, tot + m);
    TouchedNext(g, s.blocks, s.eff, t.blocks, t.eff, i, s0.eff[i], off, src, tot, m, s.logged, t.logged);
    WrittenTrans(g, s0.blocks, s0.eff, s.blocks, s.eff, t.blocks, t.eff, i, off, src, 0, tot, tot + m);
  }

  lemma LoopNext(g: Geometry, s0: Snapshot, s: Snapshot, t: Snapshot, i: nat, off: nat, src: seq<Byte>, tot: nat, m: nat,
                 data: set<nat>, maps: set<nat>, gained: nat, addr: nat, more: set<nat>)
    requires InodesOk(g, s0.eff) && InodesOk(g, s.eff) && InodesOk(g, t.eff) && i < |s0.eff|
    requires off <= s0.eff[i].size && tot + m <= |src| && off + tot + m <= MAXFILE * BSIZE
    requires 0 < m && (off + tot) % BSIZE + m <= BSIZE && (tot == 0 || (off + tot) % BSIZE == 0)
    requires Looping(g, s0, s, i, off, src, tot, data, maps, gained)
    requires PartDone(g, s, t, i, off, src, tot, tot + m, addr, more)
    ensures Looping(g, s0, t, i, off, src, tot + m, data + {addr}, maps + more, Gained(s, t, i, gained))
  {
    hide Written, Accounted, Progress, Touched, Logs, Allocated, Stepped, Fresh;
    var d0, d1, d2 := s0.eff[i], s.eff[i], t.eff[i];
    LoopDisk(g, s0, s, t, i, off, src, tot, m);
    AccountedNext(s0.logged, s.logged, t.logged, d0, d1, d2, off, tot, m, data, maps, gained, addr, more,
                  FileBlock(s.blocks, d1, (off + tot) / BSIZE) == 0);
    AllocatedNext(s0.owner, s.owner, t.owner, s.blocks, d0, d1, d2, off, tot, m);
    hide PartDone;
  }

  lemma SteppedWritten(g: Geometry, b1: seq<Block>, e1: seq<Dinode>, b2: seq<Block>, e2: seq<Dinode>,
                       i: nat, off: nat, src: seq<Byte>, lo: nat, hi: nat)
    requires InodesOk(g, e1) && InodesOk(g, e2) && i < |e1| && lo < hi <= |src| && off + hi <= MAXFILE * BSIZE
    requires Stepped(g, b1, e1, b2, e2, i, off, src, lo, hi)
    ensures Written(g, b1, e1, b2, e2, i, off, src, lo, hi) && |e2| == |e1|
  {
  }

  lemma LoopDone(g: Geometry, s0: Snapshot, s: Snapshot, i: nat, off: nat, src: seq<Byte>,
                 data: set<nat>, maps: set<nat>, gained: nat)
    requires InodesOk(g, s0.eff) && InodesOk(g, s.eff) && i < |s0.eff|
    requires Looping(g, s0, s, i, off, src, |src|, data, maps, gained)
    ensures Written(g, s0.blocks, s0.eff, s.blocks, s.eff, i, off, src, 0, |src|)
    ensures Progress(s.blocks, s.eff[i], s0.eff[i], off + |src|) && Logs(s0.blocks, s.blocks, s0.logged, s.logged)
    ensures s.logged <= s0.logged + data + maps + IndirectOf(s.eff[i]) && |data| <= Span(off, |src|)
    ensures |maps| <= Fresh(s0.eff[i].size, off, |src|) + 1 && Touched(s.blocks, s0.eff[i], s.eff[i], off, |src|, s.logged)
  {
    hide Written, Progress, Touched, Logs, Fresh, Span;
  }

  /** What such a turn has logged, with what was logged before it, is within the bound. */
  lemma AccountedFail(before: set<nat>, l1: set<nat>, l2: set<nat>, d0: Dinode, d1: Dinode, d2: Dinode,
                      off: nat, tot: nat, m: nat, n: nat, data: set<nat>, maps: set<nat>, gained: nat, more: set<nat>)
    requires DinodeOk(d1) && DinodeOk(d2) && Accounted(before, l1, d0, d1, off, tot, data, maps, gained)
    requires 0 < m && (off + tot) % BSIZE + m <= BSIZE && (tot == 0 || (off + tot) % BSIZE == 0) && off <= d0.size && tot + m <= n
    requires l2 <= l1 + more + IndirectOf(d2) && |more| <= NewBlock(d1.addrs[NDIRECT])
    requires d1.addrs[NDIRECT] != 0 ==> d2.addrs[NDIRECT] == d1.addrs[NDIRECT]
    ensures |l2 - before| <= WriteCost(d0.size, off, n)
  {
    var ind := IndirectOf(d2);
    assert l2 - before <= data + maps + more + ind;
    CardWithin(l2 - before, data + maps + more + ind);
    UnionCard(data, maps);
    UnionCard(data + maps, more);
    UnionCard(data + maps + more, ind);
  }

  lemma CardWithin(a: set<nat>, b: set<nat>)
    requires a <= b
    ensures |a| <= |b|
  {
    assert b == a + (b - a);
  }

  /** A turn that found no free block. */
  lemma LoopFail(g: Geometry, s0: Snapshot, s: Snapshot, t: Snapshot, i: nat, off: nat, src: seq<Byte>,
                 tot: nat, m: nat, data: set<nat>, maps: set<nat>, gained: nat, more: set<nat>)
    requires InodesOk(g, s0.eff) && InodesOk(g, s.eff) && InodesOk(g, t.eff) && i < |s0.eff|
    requires off <= s0.eff[i].size && tot + m <= |src| && off + |src| <= MAXFILE * BSIZE
    requires 0 < m && (off + tot) % BSIZE + m <= BSIZE && (tot == 0 || (off + tot) % BSIZE == 0)
    requires Looping(g, s0, s, i, off, src, tot, data, maps, gained)
    requires FileBlock(s.blocks, s.eff[i], (off + tot) / BSIZE) == 0 && Stuck(s, t, i, more)
    ensures |t.owner| <= |s0.owner| + Fresh(s0.eff[i].size, off, |src|)
    ensures Logs(s0.blocks, t.blocks, s0.logged, t.logged) && |t.logged - s0.logged| <= WriteCost(s0.eff[i].size, off, |src|)
  {
    hide Written, Progress, Touched, Accounted, Allocated, Logs, WriteCost, Fresh;
    LogsTrans(s0.blocks, s.blocks, t.blocks, s0.logged, s.logged, t.logged);
    AccountedFail(s0.logged, s.logged, t.logged, s0.eff[i], s.eff[i], t.eff[i], off, tot, m, |src|, data, maps, gained, more);
    LoopFailOwners(g, s0, s, t, i, off, src, tot, m, data, maps, gained);
  }

  lemma LoopFailOwners(g: Geometry, s0: Snapshot, s: Snapshot, t: Snapshot, i: nat, off: nat, src: seq<Byte>,
                       tot: nat, m: nat, data: set<nat>, maps: set<nat>, gained: nat)
    requires InodesOk(g, s0.eff) && InodesOk(g, s.eff) && i < |s0.eff|
    requires off <= s0.eff[i].size && tot + m <= |src| && off + |src| <= MAXFILE * BSIZE
    requires 0 < m && (off + tot) % BSIZE + m <= BSIZE && (tot == 0 || (off + tot) % BSIZE == 0)
    requires Looping(g, s0, s, i, off, src, tot, data, maps, gained)
    requires FileBlock(s.blocks, s.eff[i], (off + tot) / BSIZE) == 0 && |t.owner| <= |s.owner| + NewBlock(s.eff[i].addrs[NDIRECT])
    ensures |t.owner| <= |s0.owner| + Fresh(s0.eff[i].size, off, |src|)
  {
    AllocatedFail(s0.owner, s.owner, t.owner, s.blocks, s0.eff[i], s.eff[i], off, tot, m, |src|);
  }

  // ---------------------------------------------------------------- the end of writei

  /** The size of inode i was set; references and bytes are as before. */
  ghost predicate Resized(g: Geometry, b1: seq<Block>, e1: seq<Dinode>, b2: seq<Block>, e2: seq<Dinode>, i: nat, size: Word)
    requires InodesOk(g, e1) && InodesOk(g, e2) && i < |e1|
  {
    && e2 == e1[i := e1[i].(size := size)]
    && |b2| == |b1| && SameFiles(g, b1, e1, b2, e2) && KeptRefs(b1, e1, b2, e2)
  }

  /** What writei achieves: contents, density, and everything else left alone. */
  ghost predicate Spliced(g: Geometry, b0: seq<Block>, e0: seq<Dinode>, b2: seq<Block>, e2: seq<Dinode>,
                          i: nat, off: nat, src: seq<Byte>)
    requires InodesOk(g, e0) && InodesOk(g, e2) && i < |e0| && off <= e0[i].size <= MAXFILE * BSIZE
  {
    && Dense(b2, e2[i]) && Content(b2, e2[i]) == Splice(Content(b0, e0[i]), off, src)
    && SameOtherFiles(g, b0, e0, b2, e2, i)
    && (forall j: nat :: j < |e0| && j != i ==> e2[j] == e0[j])
    && KeptRefs(b0, e0, b2, e2)
  }

  lemma ResizedContent(g: Geometry, b1: seq<Block>, e1: seq<Dinode>, b2: seq<Block>, e2: seq<Dinode>, i: nat, size: Word)
    requires InodesOk(g, e1) && InodesOk(g, e2) && i < |e1| && size <= MAXFILE * BSIZE
    requires Resized(g, b1, e1, b2, e2, i, size) && Dense(b1, e1[i].(size := size))
    ensures Content(b2, e2[i]) == Content(b1, e1[i].(size := size)) && Dense(b2, e2[i])
  {
    var d := e1[i].(size := size);
    forall x: nat | x < size ensures Content(b2, e2[i])[x] == Content(b1, d)[x] {
      assert Content(b2, e2[i])[x] == FileByte(b2, e2[i], x) == FileByte(b1, e1[i], x);
      assert Content(b1, d)[x] == FileByte(b1, d, x) == FileByte(b1, e1[i], x);
    }
    forall bn: nat | bn < MAXFILE && bn * BSIZE < size ensures FileBlock(b2, e2[i], bn) != 0 {
      assert FileBlock(b1, d, bn) == RefBlock(b1, e1[i], SlotOf(bn)) != 0;
      assert FileBlock(b2, e2[i], bn) == RefBlock(b2, e2[i], SlotOf(bn));
    }
  }

  lemma WriteDone(g: Geometry, b0: seq<Block>, e0: seq<Dinode>, b1: seq<Block>, e1: seq<Dinode>,
                  b2: seq<Block>, e2: seq<Dinode>, i: nat, off: nat, src: seq<Byte>, size: Word)
    requires InodesOk(g, e0) && InodesOk(g, e1) && InodesOk(g, e2) && i < |e0|
    requires Written(g, b0, e0, b1, e1, i, off, src, 0, |src|) && Progress(b1, e1[i], e0[i], off + |src|)
    requires off <= e0[i].size <= MAXFILE * BSIZE && off + |src| <= MAXFILE * BSIZE
    requires size == if off + |src| > e0[i].size then off + |src| else e0[i].size
    requires Resized(g, b1, e1, b2, e2, i, size)
    ensures Spliced(g, b0, e0, b2, e2, i, off, src)
  {
    WrittenIsSplice(g, b0, e0, b1, e1, i, off, src, size);
    ProgressIsDense(b1, e1[i], e0[i], off + |src|, size);
    ResizedContent(g, b1, e1, b2, e2, i, size);
    forall j: nat, x: nat | j < |e0| && j != i && x < MAXFILE * BSIZE
      ensures FileByte(b2, e2[j], x) == FileByte(b0, e0[j], x)
    {
      assert FileByte(b1, e1[j], x) == FileByte(b0, e0[j], x);
    }
    forall j: nat, s: nat | j < |e0| && s < SLOTS && RefBlock(b0, e0[j], s) != 0
      ensures RefBlock(b2, e2[j], s) == RefBlock(b0, e0[j], s)
    {
      assert RefBlock(b1, e1[j], s) == RefBlock(b0, e0[j], s);
    }
  }

  /** A write that did not grow the file left its inode alone. */
  lemma InodeKept(g: Geometry, b0: seq<Block>, e0: seq<Dinode>, b1: seq<Block>, e1: seq<Dinode>, i: nat, off: nat, src: seq<Byte>)
    requires InodesOk(g, e0) && InodesOk(g, e1) && i < |e0|
    requires Written(g, b0, e0, b1, e1, i, off, src, 0, |src|) && Progress(b1, e1[i], e0[i], off + |src|)
    ensures e1[i].size == e0[i].size && |b1| == |b0| && (off + |src| <= e0[i].size ==> e1[i] == e0[i])
    ensures forall c: nat :: c < g.bmapstart && c < |b0| ==> b1[c] == b0[c]
  {
  }

  /** The loop and the new size together: all that writei promises. */
  lemma WriteiDone(g: Geometry, s0: Snapshot, s1: Snapshot, s2: Snapshot, i: nat, off: nat, src: seq<Byte>,
                   data: set<nat>, maps: set<nat>, size: Word)
    requires InodesOk(g, s0.eff) && InodesOk(g, s1.eff) && InodesOk(g, s2.eff) && i < |s0.eff|
    requires off <= s0.eff[i].size <= MAXFILE * BSIZE && off + |src| <= MAXFILE * BSIZE
    requires Written(g, s0.blocks, s0.eff, s1.blocks, s1.eff, i, off, src, 0, |src|)
    requires Progress(s1.blocks, s1.eff[i], s0.eff[i], off + |src|)
    requires s1.logged <= s0.logged + data + maps + IndirectOf(s1.eff[i]) && |data| <= Span(off, |src|)
    requires |maps| <= Fresh(s0.eff[i].size, off, |src|) + 1 && Logs(s0.blocks, s1.blocks, s0.logged, s1.logged)
    requires Touched(s1.blocks, s0.eff[i], s1.eff[i], off, |src|, s1.logged)
    requires size == (if off + |src| > s1.eff[i].size then off + |src| else s1.eff[i].size)
    requires Resized(g, s1.blocks, s1.eff, s2.blocks, s2.eff, i, size)
    requires s2.logged <= s1.logged + {IBlock(g, i)} && Logs(s1.blocks, s2.blocks, s1.logged, s2.logged)
    ensures Spliced(g, s0.blocks, s0.eff, s2.blocks, s2.eff, i, off, src)
    ensures |s2.logged - s0.logged| <= WriteCost(s0.eff[i].size, off, |src|)
    ensures Logs(s0.blocks, s2.blocks, s0.logged, s2.logged) && Touched(s2.blocks, s0.eff[i], s2.eff[i], off, |src|, s2.logged)
  {
    hide Written, Progress, Touched, Logs, Resized, Spliced, Span, Fresh;
    InodeKept(g, s0.blocks, s0.eff, s1.blocks, s1.eff, i, off, src);
    LogsTrans(s0.blocks, s1.blocks, s2.blocks, s0.logged, s1.logged, s2.logged);
    TouchedResized(g, s1.blocks, s1.eff, s2.blocks, s2.eff, i, s0.eff[i], off, |src|, size, s1.logged, s2.logged);
    WriteDone(g, s0.blocks, s0.eff, s1.blocks, s1.eff, s2.blocks, s2.eff, i, off, src, size);
    LoggedCard(s0.logged, s2.logged, data, maps, IndirectOf(s1.eff[i]), {IBlock(g, i)});
  }

  // ---------------------------------------------------------------- truncation

  /** Blocks of inode i at direct slots below k. */
  function DirectBelow(owner: map<nat, (nat, nat)>, i: nat, k: nat): (r: set<nat>) {
    set b <- owner | owner[b].0 == i && owner[b].1 < k
  }

  /** All blocks of inode i. */
  function AllOf(owner: map<nat, (nat, nat)>, i: nat): (r: set<nat>) {
    set b <- owner | owner[b].0 == i
  }

  /** The indirect block of inode i and its entries from number k on. */
  function IndirectFrom(owner: map<nat, (nat, nat)>, i: nat, k: nat): (r: set<nat>) {
    set b <- owner | owner[b].0 == i && (owner[b].1 == NDIRECT || owner[b].1 >= NDIRECT + 1 + k)
  }

  lemma DirectStep(g: Geometry, blocks: seq<Block>, eff: seq<Dinode>, owner: map<nat, (nat, nat)>, extra: set<nat>, i: nat, k: nat)
    requires Own(g, blocks, eff, owner, extra) && i < |eff| && k < NDIRECT
    ensures var b := eff[i].addrs[k];
            if b == 0 then DirectBelow(owner, i, k + 1) == DirectBelow(owner, i, k)
            else b in owner && owner[b] == (i, k) && DirectBelow(owner, i, k + 1) == DirectBelow(owner, i, k) + {b}
  {
    var b := eff[i].addrs[k];
    assert RefBlock(blocks, eff[i], k) == b;
    forall c <- owner | owner[c] == (i, k) ensures c == b {
      assert RefBlock(blocks, eff[i], k) == c;
    }
  }

  lemma EntryStep(g: Geometry, blocks: seq<Block>, eff: seq<Dinode>, owner: map<nat, (nat, nat)>, extra: set<nat>, i: nat, k: nat)
    requires Own(g, blocks, eff, owner, extra) && i < |eff| && k < NINDIRECT && eff[i].addrs[NDIRECT] != 0
    ensures eff[i].addrs[NDIRECT] < |blocks|
    ensures var b := WordAt(blocks[eff[i].addrs[NDIRECT]], k);
            if b == 0 then IndirectFrom(owner, i, k + 1) == IndirectFrom(owner, i, k)
            else b in IndirectFrom(owner, i, k) && IndirectFrom(owner, i, k + 1) == IndirectFrom(owner, i, k) - {b}
  {
    assert RefBlock(blocks, eff[i], NDIRECT) == eff[i].addrs[NDIRECT];
    var b := WordAt(blocks[eff[i].addrs[NDIRECT]], k);
    assert RefBlock(blocks, eff[i], NDIRECT + 1 + k) == b;
    forall c <- owner | owner[c] == (i, NDIRECT + 1 + k) ensures c == b {
      assert RefBlock(blocks, eff[i], NDIRECT + 1 + k) == c;
    }
  }

  /** Freeing entry k, if it is in use, adds it to the entries freed so far. */
  lemma EntriesFreed(owner: map<nat, (nat, nat)>, i: nat, k: nat, b: nat)
    requires b in IndirectFrom(owner, i, k) && IndirectFrom(owner, i, k + 1) == IndirectFrom(owner, i, k) - {b}
    ensures IndirectFrom(owner, i, 0) - IndirectFrom(owner, i, k + 1) == IndirectFrom(owner, i, 0) - IndirectFrom(owner, i, k) + {b}
  {
  }

  lemma IndirectEnds(g: Geometry, blocks: seq<Block>, eff: seq<Dinode>, owner: map<nat, (nat, nat)>, extra: set<nat>, i: nat)
    requires Own(g, blocks, eff, owner, extra) && i < |eff|
    ensures IndirectFrom(owner, i, 0) == Indirect(owner, i)
    ensures IndirectFrom(owner, i, NINDIRECT) == IndirectOf(eff[i]) <= Indirect(owner, i)
    ensures eff[i].addrs[NDIRECT] == 0 ==> Indirect(owner, i) == {}
    ensures DirectBelow(owner, i, NDIRECT) + Indirect(owner, i) == AllOf(owner, i)
  {
    assert RefBlock(blocks, eff[i], NDIRECT) == eff[i].addrs[NDIRECT];
    forall c <- owner | owner[c].0 == i && owner[c].1 == NDIRECT ensures c == eff[i].addrs[NDIRECT] {
      assert RefBlock(blocks, eff[i], NDIRECT) == c;
    }
    if eff[i].addrs[NDIRECT] == 0 {
      forall c <- owner ensures c !in Indirect(owner, i) {
        assert RefBlock(blocks, eff[owner[c].0], owner[c].1) == c;
      }
    }
  }

  /** Only free-map blocks differ. */
  ghost predicate SameOutsideBitmap(g: Geometry, b1: seq<Block>, b2: seq<Block>) {
    |b2| == |b1| && forall c: nat :: c < |b1| && !(g.bmapstart <= c < g.datastart) ==> b2[c] == b1[c]
  }

  /** itrunc's first loop after k iterations. */
  ghost predicate Trimmed(g: Geometry, b0: seq<Block>, e0: seq<Dinode>, own0: map<nat, (nat, nat)>,
                          b: seq<Block>, e: seq<Dinode>, own: map<nat, (nat, nat)>, i: nat, k: nat)
    requires InodesOk(g, e0) && InodesOk(g, e) && i < |e0|
  {
    && own == own0 - DirectBelow(own0, i, k)
    && e == e0[i := e[i]] && e[i] == e0[i].(addrs := e[i].addrs)
    && (forall s :: 0 <= s <= NDIRECT ==> e[i].addrs[s] == if s < k then 0 else e0[i].addrs[s])
    && SameOutsideBitmap(g, b0, b) && SameOtherFiles(g, b0, e0, b, e, i)
  }

  lemma TrimSkip(g: Geometry, b0: seq<Block>, e0: seq<Dinode>, own0: map<nat, (nat, nat)>, ex0: set<nat>,
                 b: seq<Block>, e: seq<Dinode>, own: map<nat, (nat, nat)>, i: nat, k: nat)
    requires Own(g, b0, e0, own0, ex0) && InodesOk(g, e) && i < |e0| && k < NDIRECT
    requires Trimmed(g, b0, e0, own0, b, e, own, i, k) && e[i].addrs[k] == 0
    ensures Trimmed(g, b0, e0, own0, b, e, own, i, k + 1)
  {
    DirectStep(g, b0, e0, own0, ex0, i, k);
  }

  lemma LessTwice(own: map<nat, (nat, nat)>, bs: set<nat>, b: nat)
    ensures own - bs - {b} == own - (bs + {b})
  {
  }

  lemma OutsideBitmapTwice(g: Geometry, b0: seq<Block>, b1: seq<Block>, b2: seq<Block>)
    requires SameOutsideBitmap(g, b0, b1) && SameOutsideBitmap(g, b1, b2)
    ensures SameOutsideBitmap(g, b0, b2)
  {
  }

  lemma TrimNext(g: Geometry, b0: seq<Block>, e0: seq<Dinode>, own0: map<nat, (nat, nat)>, ex0: set<nat>,
                 b1: seq<Block>, e1: seq<Dinode>, own1: map<nat, (nat, nat)>,
                 b2: seq<Block>, e2: seq<Dinode>, own2: map<nat, (nat, nat)>, i: nat, k: nat)
    requires Own(g, b0, e0, own0, ex0) && InodesOk(g, e1) && InodesOk(g, e2) && i < |e0| && k < NDIRECT
    requires Trimmed(g, b0, e0, own0, b1, e1, own1, i, k) && e1[i].addrs[k] != 0
    requires e2 == e1[i := SetAddr(e1[i], k, 0)] && own2 == own1 - {e1[i].addrs[k]}
    requires SameOutsideBitmap(g, b1, b2) && SameFiles(g, b1, e2, b2, e2)
    ensures Trimmed(g, b0, e0, own0, b2, e2, own2, i, k + 1)
  {
    hide SameOtherFiles, SameFiles, SameOutsideBitmap, DirectBelow;
    assert InodesOk(g, e0);
    hide Own;
    DirectStep(g, b0, e0, own0, ex0, i, k);
    LessTwice(own0, DirectBelow(own0, i, k), e1[i].addrs[k]);
    OutsideBitmapTwice(g, b0, b1, b2);
    OthersThrough(g, b0, e0, b1, e1, b2, e2, i);
  }

  lemma OthersThrough(g: Geometry, b0: seq<Block>, e0: seq<Dinode>, b1: seq<Block>, e1: seq<Dinode>,
                      b2: seq<Block>, e2: seq<Dinode>, i: nat)
    requires InodesOk(g, e0) && InodesOk(g, e1) && InodesOk(g, e2) && i < |e0| && e2 == e1[i := e2[i]]
    requires SameOtherFiles(g, b0, e0, b1, e1, i) && SameFiles(g, b1, e2, b2, e2)
    ensures SameOtherFiles(g, b0, e0, b2, e2, i)
  {
    forall j: nat, x: nat | j < |e0| && j != i && x < MAXFILE * BSIZE
      ensures FileByte(b2, e2[j], x) == FileByte(b0, e0[j], x)
    {
      assert FileByte(b2, e2[j], x) == FileByte(b1, e2[j], x) == FileByte(b1, e1[j], x);
    }
  }

  /** The state after itrunc's second part: all addresses gone, all blocks released. */
  lemma TruncDone(g: Geometry, b0: seq<Block>, e0: seq<Dinode>, own0: map<nat, (nat, nat)>,
                  b1: seq<Block>, e1: seq<Dinode>, own1: map<nat, (nat, nat)>,
                  b2: seq<Block>, e2: seq<Dinode>, own2: map<nat, (nat, nat)>, i: nat)
    requires InodesOk(g, e0) && InodesOk(g, e1) && InodesOk(g, e2) && i < |e0|
    requires Trimmed(g, b0, e0, own0, b1, e1, own1, i, NDIRECT)
    requires if e1[i].addrs[NDIRECT] == 0 then b2 == b1 && e2 == e1 && own2 == own1
             else e2 == e1[i := SetAddr(e1[i], NDIRECT, 0)] && own2 == own1 - Indirect(own1, i)
                  && SameFiles(g, b1, e2, b2, e2)
    requires DirectBelow(own0, i, NDIRECT) + Indirect(own0, i) == AllOf(own0, i)
    requires e0[i].addrs[NDIRECT] == 0 ==> Indirect(own0, i) == {}
    ensures own2 == own0 - AllOf(own0, i) && Indirect(own1, i) == Indirect(own0, i)
    ensures e2 == e0[i := e0[i].(addrs := seq<Word>(NDIRECT + 1, _ => 0))]
    ensures SameOtherFiles(g, b0, e0, b2, e2, i)
  {
    assert Indirect(own1, i) == Indirect(own0, i);
    assert e2[i].addrs == seq<Word>(NDIRECT + 1, _ => 0);
    forall j: nat, x: nat | j < |e0| && j != i && x < MAXFILE * BSIZE
      ensures FileByte(b2, e2[j], x) == FileByte(b0, e0[j], x)
    {
      assert FileByte(b1, e1[j], x) == FileByte(b0, e0[j], x);
      assert FileByte(b1, e2[j], x) == FileByte(b1, e1[j], x);
    }
  }

  lemma FilesAfterTrunc(g: Geometry, b0: seq<Block>, e0: seq<Dinode>, b2: seq<Block>, e2: seq<Dinode>,
                        b3: seq<Block>, e3: seq<Dinode>, i: nat)
    requires InodesOk(g, e0) && InodesOk(g, e2) && InodesOk(g, e3) && i < |e0|
    requires SameOtherFiles(g, b0, e0, b2, e2, i) && e3 == e2[i := e3[i]] && SameFiles(g, b2, e3, b3, e3)
    ensures SameOtherFiles(g, b0, e0, b3, e3, i)
  {
  }
}
