/** The file system as operations running side by side change it, one block or one in-memory
    inode at a time.  An operation may change an inode it has locked, the blocks of that file,
    and blocks it holds: allocated and not yet part of a file, or taken out of one and not yet
    freed. */
module FsShared {
  import opened Blocks
  import opened FsLayout
  import opened FsOwnership

  /** What all operations see: the blocks, every inode (the in-memory copy of a locked one),
      who owns each block in use, who holds the others, and who has locked which inode. */
  datatype Shared = Shared(v: seq<Block>, eff: seq<Dinode>, owner: map<nat, (nat, nat)>, held: map<nat, nat>, locks: map<nat, nat>)

  predicate Holds(t: Shared, id: nat, c: nat) { c in t.held && t.held[c] == id }

  predicate Has(t: Shared, id: nat, i: nat) { i in t.locks && t.locks[i] == id }

  /** Every block in use is owned by one slot of one inode or held, the free map says so, and
      inodes nobody has locked are as on disk. */
  ghost predicate Sound(g: Geometry, t: Shared) {
    && Own(g, t.v, t.eff, t.owner, t.held.Keys)
    && (forall i <- t.locks :: i < g.ninodes) && Stored(g, t.v, t.locks.Keys, t.eff)
  }

  // ---------------------------------------------------------------- changes to blocks

  /** The changes that are logged: balloc marks block c and zeroes it; bmap stores c in entry e
      of inode i's indirect block; writei writes a file block; iupdate; bfree. */
  datatype Act =
    | Mark(c: nat)
    | Zero(c: nat)
    | Entry(i: nat, e: nat, c: nat)
    | Data(i: nat, bn: nat, data: Block)
    | Update(i: nat)
    | Clear(c: nat)

  /** What an operation that holds the buffer may do to it. */
  ghost predicate Allowed(g: Geometry, t: Shared, id: nat, act: Act)
    requires Sound(g, t)
  {
    match act
    case Mark(c) => c < g.size && !Bit(g, t.v, c)
    case Zero(c) => Holds(t, id, c)
    case Entry(i, e, c) =>
      && Has(t, id, i) && e < NINDIRECT && t.eff[i].addrs[NDIRECT] != 0 && RefBlock(t.v, t.eff[i], NDIRECT + 1 + e) == 0
      && Holds(t, id, c) && t.v[c] == ZeroBlock
    case Data(i, bn, _) => Has(t, id, i) && bn < MAXFILE && FileBlock(t.v, t.eff[i], bn) != 0
    case Update(i) => Has(t, id, i)
    case Clear(c) => Holds(t, id, c)
  }

  /** The block that is written ... */
  ghost function Target(g: Geometry, t: Shared, id: nat, act: Act): (b: nat)
    requires Sound(g, t) && Allowed(g, t, id, act)
  {
    match act
    case Mark(c) => BBlock(g, c)
    case Zero(c) => c
    case Entry(i, _, _) => t.eff[i].addrs[NDIRECT]
    case Data(i, bn, _) => FileBlock(t.v, t.eff[i], bn)
    case Update(i) => IBlock(g, i)
    case Clear(c) => BBlock(g, c)
  }

  lemma TargetFits(g: Geometry, t: Shared, id: nat, act: Act)
    requires Sound(g, t) && Allowed(g, t, id, act)
    ensures g.inodestart <= Target(g, t, id, act) < |t.v|
  {
    hide BitsOk, OwnedOk, RefsOk, Stored;
    match act
    case Entry(i, _, _) => RefInRange(g, t.v, t.eff, t.owner, t.held.Keys, i, NDIRECT);
    case Data(i, bn, _) => RefInRange(g, t.v, t.eff, t.owner, t.held.Keys, i, SlotOf(bn));
    case _ =>
  }

  /** ... and its new contents. */
  ghost function Contents(g: Geometry, t: Shared, id: nat, act: Act): (data: Block)
    requires Sound(g, t) && Allowed(g, t, id, act)
  {
    TargetFits(g, t, id, act);
    var b := t.v[Target(g, t, id, act)];
    match act
    case Mark(c) => PutBit(b, c % BPB, true)
    case Zero(c) => ZeroBlock
    case Entry(i, e, c) => PutWord(b, e, c)
    case Data(_, _, data) => data
    case Update(i) => EncodeInode(b, i % IPB, t.eff[i])
    case Clear(c) => PutBit(b, c % BPB, false)
  }

  ghost function Effect(g: Geometry, t: Shared, id: nat, act: Act): (r: Shared)
    requires Sound(g, t) && Allowed(g, t, id, act)
  {
    TargetFits(g, t, id, act);
    var r := t.(v := t.v[Target(g, t, id, act) := Contents(g, t, id, act)]);
    match act
    case Mark(c) => r.(held := t.held[c := id])
    case Entry(i, e, c) => r.(owner := t.owner[c := (i, NDIRECT + 1 + e)], held := t.held - {c})
    case Clear(c) => r.(held := t.held - {c})
    case _ => r
  }

  lemma MarkKeeps(g: Geometry, t: Shared, id: nat, c: nat)
    requires Sound(g, t) && Allowed(g, t, id, Mark(c))
    ensures Sound(g, Effect(g, t, id, Mark(c)))
  {
    var r := Effect(g, t, id, Mark(c));
    assert g.datastart <= c && c !in t.owner && c !in t.held;
    hide BitsOk, OwnedOk, RefsOk, Stored;
    assert r.held.Keys == t.held.Keys + {c};
    BitmapWriteKeeps(g, t.v, t.eff, t.owner, t.held.Keys, c, true, r.held.Keys);
    StoredKept(g, t.v, r.v, t.locks.Keys, t.eff, t.eff);
  }

  lemma ClearKeeps(g: Geometry, t: Shared, id: nat, c: nat)
    requires Sound(g, t) && Allowed(g, t, id, Clear(c))
    ensures Sound(g, Effect(g, t, id, Clear(c)))
  {
    hide BitsOk, OwnedOk, RefsOk, Stored;
    var r := Effect(g, t, id, Clear(c));
    assert r.held.Keys == t.held.Keys - {c};
    BitmapWriteKeeps(g, t.v, t.eff, t.owner, t.held.Keys, c, false, r.held.Keys);
    StoredKept(g, t.v, r.v, t.locks.Keys, t.eff, t.eff);
  }

  lemma ZeroesKeep(g: Geometry, t: Shared, id: nat, c: nat)
    requires Sound(g, t) && Allowed(g, t, id, Zero(c))
    ensures Sound(g, Effect(g, t, id, Zero(c)))
  {
    hide BitsOk, OwnedOk, RefsOk, Stored;
    ZeroKeeps(g, t.v, t.eff, t.owner, t.held.Keys, c, ZeroBlock);
    StoredKept(g, t.v, Effect(g, t, id, Zero(c)).v, t.locks.Keys, t.eff, t.eff);
  }

  lemma EntryKeeps(g: Geometry, t: Shared, id: nat, i: nat, e: nat, c: nat)
    requires Sound(g, t) && Allowed(g, t, id, Entry(i, e, c))
    ensures Sound(g, Effect(g, t, id, Entry(i, e, c)))
  {
    hide BitsOk, OwnedOk, RefsOk, Stored, PutWord;
    var r := Effect(g, t, id, Entry(i, e, c));
    assert r.held.Keys == t.held.Keys - {c};
    AttachEntryKeeps(g, t.v, t.eff, t.owner, t.held.Keys, i, e, c);
    StoredKept(g, t.v, r.v, t.locks.Keys, t.eff, t.eff);
  }

  lemma DataKeeps(g: Geometry, t: Shared, id: nat, i: nat, bn: nat, data: Block)
    requires Sound(g, t) && Allowed(g, t, id, Data(i, bn, data))
    ensures Sound(g, Effect(g, t, id, Data(i, bn, data)))
  {
    hide BitsOk, OwnedOk, RefsOk, Stored;
    WriteFileBlock(g, t.v, t.eff, t.owner, t.held.Keys, i, bn, data);
    StoredKept(g, t.v, Effect(g, t, id, Data(i, bn, data)).v, t.locks.Keys, t.eff, t.eff);
  }

  lemma UpdateKeeps(g: Geometry, t: Shared, id: nat, i: nat)
    requires Sound(g, t) && Allowed(g, t, id, Update(i))
    ensures Sound(g, Effect(g, t, id, Update(i)))
  {
    hide BitsOk, RefsOk, DecodeInode, EncodeInode;
    var r, ib := Effect(g, t, id, Update(i)), IBlock(g, i);
    WriteKeepsOwn(g, t.v, t.eff, t.owner, t.held.Keys, ib, Contents(g, t, id, Update(i)));
    hide OwnedOk;
    forall j: nat | j < g.ninodes && j !in t.locks ensures t.eff[j] == DecodeInode(r.v[IBlock(g, j)], j % IPB) {
      if IBlock(g, j) == ib {
        InodeRoundTrip(t.v[ib], i % IPB, t.eff[i], j % IPB);
        assert j == (j / IPB) * IPB + j % IPB && i == (i / IPB) * IPB + i % IPB;
      }
    }
  }

  /** Each change to a block keeps the file system sound. */
  lemma ActKeeps(g: Geometry, t: Shared, id: nat, act: Act)
    requires Sound(g, t) && Allowed(g, t, id, act)
    ensures Sound(g, Effect(g, t, id, act))
  {
    hide Sound, Allowed, Effect;
    match act
    case Mark(c) => MarkKeeps(g, t, id, c);
    case Zero(c) => ZeroesKeep(g, t, id, c);
    case Entry(i, e, c) => EntryKeeps(g, t, id, i, e, c);
    case Data(i, bn, data) => DataKeeps(g, t, id, i, bn, data);
    case Update(i) => UpdateKeeps(g, t, id, i);
    case Clear(c) => ClearKeeps(g, t, id, c);
  }

  // ---------------------------------------------------------------- operations do not meet

  /** Block b is held by the operation or belongs to a file it has locked. */
  predicate Mine(t: Shared, id: nat, b: nat) {
    Holds(t, id, b) || (b in t.owner && Has(t, id, t.owner[b].0))
  }

  /** An operation writes metadata or blocks of its own. */
  lemma TargetIsMine(g: Geometry, t: Shared, id: nat, act: Act)
    requires Sound(g, t) && Allowed(g, t, id, act)
    ensures Target(g, t, id, act) < g.datastart || Mine(t, id, Target(g, t, id, act))
  {
    hide BitsOk, OwnedOk, Stored;
    match act
    case Entry(i, _, _) => assert RefBlock(t.v, t.eff[i], NDIRECT) == t.eff[i].addrs[NDIRECT];
    case Data(i, bn, _) => assert RefBlock(t.v, t.eff[i], SlotOf(bn)) == FileBlock(t.v, t.eff[i], bn);
    case _ =>
  }

  /** What is one operation's is no other's, and is data. */
  lemma MineIsNotYours(g: Geometry, t: Shared, id: nat, other: nat, b: nat)
    requires Sound(g, t) && id != other && Mine(t, id, b)
    ensures !Mine(t, other, b) && g.datastart <= b < g.size
  {
    hide BitsOk, RefsOk, Stored;
  }

  /** Two shared states that an operation cannot tell apart when it works on block b: the same
      locks, inodes and held blocks of its own, b itself, and the blocks that are its own. */
  ghost predicate Alike(t: Shared, r: Shared, id: nat, b: nat) {
    && |r.v| == |t.v| && |r.eff| == |t.eff|
    && (forall i: nat :: Has(t, id, i) ==> Has(r, id, i) && (i < |t.eff| ==> r.eff[i] == t.eff[i]))
    && (forall c: nat :: Holds(t, id, c) ==> Holds(r, id, c))
    && (b < |t.v| ==> r.v[b] == t.v[b])
    && (forall c: nat :: c < |t.v| && Mine(t, id, c) ==> r.v[c] == t.v[c])
  }

  /** References of a locked inode look the same. */
  lemma AlikeRefs(g: Geometry, t: Shared, r: Shared, id: nat, b: nat, i: nat, s: nat)
    requires Sound(g, t) && Sound(g, r) && Alike(t, r, id, b) && Has(t, id, i) && s < SLOTS
    ensures RefBlock(r.v, r.eff[i], s) == RefBlock(t.v, t.eff[i], s)
  {
    hide BitsOk, OwnedOk, Stored;
    assert RefBlock(t.v, t.eff[i], NDIRECT) == t.eff[i].addrs[NDIRECT];
  }

  /** So what it was about to do it may still do, to the same block and with the same result. */
  lemma AlikeAct(g: Geometry, t: Shared, r: Shared, id: nat, act: Act)
    requires Sound(g, t) && Sound(g, r) && Allowed(g, t, id, act) && Alike(t, r, id, Target(g, t, id, act))
    ensures Allowed(g, r, id, act)
    ensures Target(g, r, id, act) == Target(g, t, id, act) && Contents(g, r, id, act) == Contents(g, t, id, act)
  {
    hide BitsOk, OwnedOk, RefsOk, Stored, EncodeInode, PutBit, PutWord;
    TargetFits(g, t, id, act);
    match act
    case Entry(i, e, c) =>
      AlikeRefs(g, t, r, id, Target(g, t, id, act), i, NDIRECT + 1 + e);
      HeldFits(g, t, c);
    case Data(i, bn, _) => AlikeRefs(g, t, r, id, Target(g, t, id, act), i, SlotOf(bn));
    case _ =>
  }

  lemma HeldFits(g: Geometry, t: Shared, c: nat)
    requires Sound(g, t) && c in t.held
    ensures g.datastart <= c < |t.v|
  {
  }

  lemma FreeIsNotHeld(g: Geometry, t: Shared, c: nat)
    requires Sound(g, t) && c < g.size && !Bit(g, t.v, c)
    ensures c !in t.held
  {
  }

  /** A change to a block leaves inodes and locks alone, and what other operations hold. */
  lemma EffectShape(g: Geometry, t: Shared, id: nat, act: Act, other: nat)
    requires Sound(g, t) && Allowed(g, t, id, act) && id != other
    ensures Target(g, t, id, act) < |t.v|
    ensures var r := Effect(g, t, id, act);
            && r.v == t.v[Target(g, t, id, act) := Contents(g, t, id, act)] && r.eff == t.eff && r.locks == t.locks
            && forall c: nat :: Holds(t, other, c) ==> Holds(r, other, c)
  {
    TargetFits(g, t, id, act);
    if act.Mark? {
      FreeIsNotHeld(g, t, act.c);
    }
    hide Sound, Target, Contents;
  }

  /** New blocks are held by the operation that makes the change. */
  lemma EffectHolders(g: Geometry, t: Shared, id: nat, act: Act)
    requires Sound(g, t) && Allowed(g, t, id, act)
    ensures var r := Effect(g, t, id, act);
            r.locks == t.locks && forall c <- r.held :: r.held[c] == id || (c in t.held && r.held[c] == t.held[c])
  {
    hide Sound, Target, Contents;
  }

  /** An operation's change to a block is not noticed by another that works on another block. */
  lemma ActFrame(g: Geometry, t: Shared, id: nat, act: Act, other: nat, b: nat)
    requires Sound(g, t) && Allowed(g, t, id, act) && id != other && b != Target(g, t, id, act)
    ensures Alike(t, Effect(g, t, id, act), other, b)
  {
    hide Sound, Allowed, Target, Contents, Effect;
    EffectShape(g, t, id, act, other);
    TargetIsMine(g, t, id, act);
    forall c: nat | Mine(t, other, c) ensures c != Target(g, t, id, act) {
      MineIsNotYours(g, t, other, id, c);
    }
  }

  // ---------------------------------------------------------------- changes in memory

  /** Changes to in-memory inodes: locking and unlocking; storing a fresh block in a direct slot
      or as indirect block; taking a direct block, or the indirect block with its entries, out
      of the file; and changing any other field. */
  datatype Change =
    | Lock(i: nat)
    | Unlock(i: nat)
    | Attach(i: nat, s: nat, c: nat)
    | Detach(i: nat, s: nat)
    | DetachIndirect(i: nat)
    | Fields(i: nat, d: Dinode)

  /** An inode is unlocked only after iupdate. */
  ghost predicate MayChange(g: Geometry, t: Shared, id: nat, ch: Change)
    requires Sound(g, t)
  {
    match ch
    case Lock(i) => i < g.ninodes && i !in t.locks
    case Unlock(i) => Has(t, id, i) && DecodeInode(t.v[IBlock(g, i)], i % IPB) == t.eff[i]
    case Attach(i, s, c) => Has(t, id, i) && s <= NDIRECT && t.eff[i].addrs[s] == 0 && Holds(t, id, c) && t.v[c] == ZeroBlock
    case Detach(i, s) => Has(t, id, i) && s < NDIRECT && t.eff[i].addrs[s] != 0
    case DetachIndirect(i) => Has(t, id, i)
    case Fields(i, d) => Has(t, id, i) && DinodeOk(d) && d.addrs == t.eff[i].addrs
  }

  /** The held blocks, with those of bs given to the operation. */
  function Taken(held: map<nat, nat>, id: nat, bs: set<nat>): (r: map<nat, nat>)
    ensures r.Keys == held.Keys + bs && forall c <- r :: r[c] == if c in bs then id else held[c]
  {
    map c | c in held.Keys + bs :: if c in bs then id else held[c]
  }

  ghost function Changed(g: Geometry, t: Shared, id: nat, ch: Change): (r: Shared)
    requires Sound(g, t) && MayChange(g, t, id, ch)
  {
    match ch
    case Lock(i) => t.(locks := t.locks[i := id])
    case Unlock(i) => t.(locks := t.locks - {i})
    case Attach(i, s, c) =>
      HeldFits(g, t, c);
      t.(eff := t.eff[i := SetAddr(t.eff[i], s, c)], owner := t.owner[c := (i, s)], held := t.held - {c})
    case Detach(i, s) =>
      var b := t.eff[i].addrs[s];
      t.(eff := t.eff[i := SetAddr(t.eff[i], s, 0)], owner := t.owner - {b}, held := Taken(t.held, id, {b}))
    case DetachIndirect(i) =>
      var bs := Indirect(t.owner, i);
      t.(eff := t.eff[i := SetAddr(t.eff[i], NDIRECT, 0)], owner := t.owner - bs, held := Taken(t.held, id, bs))
    case Fields(i, d) => t.(eff := t.eff[i := d])
  }

  /** Each change in memory keeps the file system sound. */
  lemma ChangeKeeps(g: Geometry, t: Shared, id: nat, ch: Change)
    requires Sound(g, t) && MayChange(g, t, id, ch)
    ensures Sound(g, Changed(g, t, id, ch))
  {
    hide BitsOk, OwnedOk, RefsOk;
    var r := Changed(g, t, id, ch);
    match ch
    case Lock(i) => assert r.locks.Keys == t.locks.Keys + {i};
    case Unlock(i) => assert r.locks.Keys == t.locks.Keys - {i};
    case Attach(i, s, c) =>
      assert r.held.Keys == t.held.Keys - {c};
      AttachKeeps(g, t.v, t.eff, t.owner, t.held.Keys, i, s, c);
    case Detach(i, s) => DetachKeeps(g, t.v, t.eff, t.owner, t.held.Keys, i, s);
    case DetachIndirect(i) => DetachIndirectKeeps(g, t.v, t.eff, t.owner, t.held.Keys, i);
    case Fields(i, d) => ResizeKeeps(g, t.v, t.eff, t.owner, t.held.Keys, i, d);
  }

  /** No other operation notices. */
  lemma ChangeFrame(g: Geometry, t: Shared, id: nat, ch: Change, other: nat, b: nat)
    requires Sound(g, t) && MayChange(g, t, id, ch) && id != other
    ensures Alike(t, Changed(g, t, id, ch), other, b)
  {
    hide BitsOk, OwnedOk, RefsOk, Stored;
    if ch.Detach? {
      RefInRange(g, t.v, t.eff, t.owner, t.held.Keys, ch.i, ch.s);
    }
    if ch.DetachIndirect? {
      assert forall c: nat :: c in Indirect(t.owner, ch.i) ==> c !in t.held;
    }
  }

  lemma ChangedHolders(g: Geometry, t: Shared, id: nat, ch: Change)
    requires Sound(g, t) && MayChange(g, t, id, ch)
    ensures var r := Changed(g, t, id, ch);
            && r.v == t.v
            && (forall i <- r.locks :: r.locks[i] == id || (i in t.locks && r.locks[i] == t.locks[i]))
            && (forall c <- r.held :: r.held[c] == id || (c in t.held && r.held[c] == t.held[c]))
  {
    hide BitsOk, OwnedOk, RefsOk, Stored;
  }

  // ---------------------------------------------------------------- what becomes of the files

  /** A logged change makes exactly the difference it is for: writing a file block replaces
      the bytes of that block of that file; updating an inode puts it on disk, so that it may
      be unlocked; storing an entry makes it refer to the new block; zeroing clears the block;
      and but for the first no byte of any file changes. */
  lemma ActFiles(g: Geometry, t: Shared, id: nat, act: Act)
    requires Sound(g, t) && Allowed(g, t, id, act)
    ensures Sound(g, Effect(g, t, id, act))
    ensures var r := Effect(g, t, id, act);
            && r.eff == t.eff
            && (!act.Data? ==> SameFiles(g, t.v, t.eff, r.v, r.eff))
            && (act.Data? ==> SameOtherFiles(g, t.v, t.eff, r.v, r.eff, act.i) && BlockReplaced(t, r, act.i, act.bn, act.data))
            && (act.Update? ==> MayChange(g, r, id, Unlock(act.i)))
            && (act.Entry? ==> RefBlock(r.v, r.eff[act.i], NDIRECT + 1 + act.e) == act.c)
            && (act.Zero? ==> act.c < |r.v| && r.v[act.c] == ZeroBlock && Holds(r, id, act.c))
            && (act.Mark? ==> Bit(g, r.v, act.c) && Holds(r, id, act.c))
            && (act.Clear? ==> !Bit(g, r.v, act.c) && act.c !in r.held)
  {
    hide BitsOk, OwnedOk, RefsOk, Stored, SameFiles, SameOtherFiles, Bit;
    match act
    case Mark(c) => MarkFiles(g, t, id, c);
    case Zero(c) => ZeroesKeep(g, t, id, c); ZeroKeeps(g, t.v, t.eff, t.owner, t.held.Keys, c, ZeroBlock);
    case Entry(i, e, c) => EntryKeeps(g, t, id, i, e, c); AttachEntryKeeps(g, t.v, t.eff, t.owner, t.held.Keys, i, e, c);
    case Data(i, bn, data) => DataKeeps(g, t, id, i, bn, data); WriteFileBlock(g, t.v, t.eff, t.owner, t.held.Keys, i, bn, data);
    case Update(i) => UpdateFiles(g, t, id, i);
    case Clear(c) => ClearFiles(g, t, id, c);
  }

  /** File block bn of inode i holds data, and the rest of the file is as it was. */
  ghost predicate BlockReplaced(t: Shared, r: Shared, i: nat, bn: nat, data: Block)
    requires i < |t.eff| == |r.eff| && DinodeOk(t.eff[i]) && DinodeOk(r.eff[i])
  {
    forall x: nat :: x < MAXFILE * BSIZE ==>
      FileByte(r.v, r.eff[i], x) == if x / BSIZE == bn then data[x % BSIZE] else FileByte(t.v, t.eff[i], x)
  }

  lemma MarkFiles(g: Geometry, t: Shared, id: nat, c: nat)
    requires Sound(g, t) && Allowed(g, t, id, Mark(c))
    ensures var r := Effect(g, t, id, Mark(c)); Sound(g, r) && SameFiles(g, t.v, t.eff, r.v, r.eff) && Bit(g, r.v, c)
  {
    MarkKeeps(g, t, id, c);
    assert g.datastart <= c && c !in t.owner;
    hide BitsOk, OwnedOk, RefsOk, Stored, SameFiles;
    BitmapWriteKeeps(g, t.v, t.eff, t.owner, t.held.Keys, c, true, t.held.Keys + {c});
    FlipBit(g, t.v, c, true, c);
  }

  lemma ClearFiles(g: Geometry, t: Shared, id: nat, c: nat)
    requires Sound(g, t) && Allowed(g, t, id, Clear(c))
    ensures var r := Effect(g, t, id, Clear(c)); Sound(g, r) && SameFiles(g, t.v, t.eff, r.v, r.eff) && !Bit(g, r.v, c)
  {
    ClearKeeps(g, t, id, c);
    hide BitsOk, OwnedOk, RefsOk, Stored, SameFiles;
    BitmapWriteKeeps(g, t.v, t.eff, t.owner, t.held.Keys, c, false, t.held.Keys - {c});
    FlipBit(g, t.v, c, false, c);
  }

  lemma UpdateFiles(g: Geometry, t: Shared, id: nat, i: nat)
    requires Sound(g, t) && Allowed(g, t, id, Update(i))
    ensures var r := Effect(g, t, id, Update(i));
            Sound(g, r) && SameFiles(g, t.v, t.eff, r.v, r.eff) && MayChange(g, r, id, Unlock(i))
  {
    hide BitsOk, OwnedOk, RefsOk, Stored, SameFiles, DecodeInode, EncodeInode;
    UpdateKeeps(g, t, id, i);
    InodeBlockFiles(g, t.v, t.eff, t.owner, t.held.Keys, IBlock(g, i), Contents(g, t, id, Update(i)));
    InodeRoundTrip(t.v[IBlock(g, i)], i % IPB, t.eff[i], i % IPB);
  }

  /** A change in memory changes no byte of any file, except where blocks are taken out of the
      one file that the operation has locked. */
  lemma ChangeFiles(g: Geometry, t: Shared, id: nat, ch: Change)
    requires Sound(g, t) && MayChange(g, t, id, ch)
    ensures Sound(g, Changed(g, t, id, ch))
    ensures var r := Changed(g, t, id, ch);
            && (!ch.Detach? && !ch.DetachIndirect? ==> SameFiles(g, t.v, t.eff, r.v, r.eff))
            && SameOtherFiles(g, t.v, t.eff, r.v, r.eff, ch.i)
            && (ch.Attach? ==> RefBlock(r.v, r.eff[ch.i], ch.s) == ch.c)
            && (ch.Detach? ==> RefBlock(r.v, r.eff[ch.i], ch.s) == 0 && Holds(r, id, t.eff[ch.i].addrs[ch.s]))
  {
    ChangeKeeps(g, t, id, ch);
    hide BitsOk, OwnedOk, RefsOk, Stored;
    match ch
    case Attach(i, s, c) => AttachKeeps(g, t.v, t.eff, t.owner, t.held.Keys, i, s, c);
    case Fields(i, d) => ResizeKeeps(g, t.v, t.eff, t.owner, t.held.Keys, i, d);
    case _ =>
  }

  /** So whatever an operation does, a file locked by another keeps its bytes. */
  lemma LockedFileKept(g: Geometry, t: Shared, id: nat, act: Act, other: nat, j: nat, x: nat)
    requires Sound(g, t) && Allowed(g, t, id, act) && id != other && Has(t, other, j) && x < MAXFILE * BSIZE
    ensures var r := Effect(g, t, id, act); Sound(g, r) && FileByte(r.v, r.eff[j], x) == FileByte(t.v, t.eff[j], x)
  {
    hide BitsOk, OwnedOk, RefsOk, Stored, Effect, FileByte;
    ActFiles(g, t, id, act);
  }
}
