/** filewrite of file.c: a long write is cut into transactions that fit the log. */
module File {
  import opened Blocks
  import opened FsLayout
  import opened FsOwnership
  import opened LogBudget
  import opened CrowdedDisk
  import opened RedoLog
  import F = Fs

  const MAXCHUNK: nat := (MAXOPBLOCKS - 1 - 1 - 2) / 2 * 512

  lemma SpliceTwice(c: seq<Byte>, off: nat, s1: seq<Byte>, s2: seq<Byte>)
    requires off <= |c|
    ensures Splice(Splice(c, off, s1), off + |s1|, s2) == Splice(c, off, s1 + s2)
  {
  }

  // ---------------------------------------------------------------- transactions

  /** The changes from one state to the next fit one transaction: every changed block is
      logged, and no more than MAXOPBLOCKS are. */
  ghost predicate FitsLog(before: Snapshot, after: Snapshot) {
    Logs(before.blocks, after.blocks, {}, after.logged) && |after.logged| <= MAXOPBLOCKS
  }

  /** The state at the last of these ends of transactions. */
  ghost function Last(s0: Snapshot, ends: seq<Snapshot>): (s: Snapshot) {
    if ends == [] then s0 else ends[|ends| - 1]
  }

  /** From s0 on there is nothing but transactions that fit the log, with these ends. */
  ghost predicate Transactions(s0: Snapshot, ends: seq<Snapshot>) {
    forall k :: 0 <= k < |ends| ==> FitsLog(Last(s0, ends[..k]), ends[k])
  }

  lemma OneMore(s0: Snapshot, ends: seq<Snapshot>, s: Snapshot)
    requires Transactions(s0, ends) && FitsLog(Last(s0, ends), s)
    ensures Transactions(s0, ends + [s]) && Last(s0, ends + [s]) == s
  {
    var more := ends + [s];
    assert more[..|ends|] == ends;
    assert forall k :: 0 <= k < |ends| ==> more[..k] == ends[..k];
  }

  /** The log as a process that calls begin_op and end_op sees it. */
  class Journal {
    var outstanding: bool             // the process is between begin_op and end_op
    ghost var ends: seq<Snapshot>     // the file system at every end_op so far

    constructor ()
      ensures !outstanding && ends == []
    {
      outstanding, ends := false, [];
    }

    method BeginOp(fs: F.Fs)
      requires !outstanding
      modifies this`outstanding, fs`logged
      ensures outstanding && fs.logged == {}
    {
      outstanding := true;
      fs.logged := {};
    }

    method EndOp(fs: F.Fs)
      requires outstanding
      modifies this
      ensures !outstanding && ends == old(ends) + [fs.Now()]
    {
      outstanding := false;
      ends := ends + [fs.Now()];
    }
  }

  /** One transaction of filewrite: begin_op, writei, end_op.  All it changes is logged, in at
      most MAXOPBLOCKS distinct blocks; if writei finds no free block, the transaction is left
      open, and what it has changed so far is logged all the same. */
  method WriteChunk(fs: F.Fs, log: Journal, inum: nat, off: Word, part: seq<Byte>) returns (err: bool, ok: bool)
    requires fs.Valid() && inum in fs.ino && Dense(fs.blocks, fs.eff[inum]) && |part| <= MAXCHUNK && !log.outstanding
    modifies fs, log
    ensures err == (off > old(fs.eff)[inum].size || off + |part| > MAXFILE * BSIZE)
    ensures err ==> ok && fs.blocks == old(fs.blocks) && fs.eff == old(fs.eff)
    ensures ok ==> fs.Valid() && fs.ino.Keys == old(fs.ino.Keys) && fs.extra == old(fs.extra)
    ensures ok && !err ==> Spliced(fs.g, old(fs.blocks), old(fs.eff), fs.blocks, fs.eff, inum, off, part)
    ensures ok && old(fs.OnDisk(inum)) ==> fs.OnDisk(inum)
    ensures FitsLog(old(fs.Now()), fs.Now()) && log.outstanding == !ok
    ensures log.ends == if ok then old(log.ends) + [fs.Now()] else old(log.ends)
    ensures !ok ==> fs.Full()
  {
    hide BitsOk, OwnedOk, RefsOk, Stored, Spliced, Dense, DecodeInode, WriteCost;
    log.BeginOp(fs);
    assert fs.Valid() && (old(fs.OnDisk(inum)) ==> fs.OnDisk(inum));
    err, ok := fs.Writei(inum, off, part);
    assert fs.logged - {} == fs.logged;
    if !err {
      ChunkWithinBudget(old(fs.eff)[inum].size, off, |part|);
    }
    if ok {
      log.EndOp(fs);
    }
  }

  /** A write of any length as one transaction, in the worst case for the log and with enough
      blocks free: it completes and logs exactly WriteCost blocks. */
  method WriteWorstCase(fs: F.Fs, inum: nat, off: Word, part: seq<Byte>, ghost free: set<nat>)
    requires fs.Valid() && inum in fs.ino && |part| < TWO32
    requires off == fs.eff[inum].size && WorstCase(fs.g, fs.blocks, fs.eff[inum], off, |part|)
    requires Fresh(off, off, |part|) < |free|
    requires forall c <- free :: fs.g.datastart <= c < fs.g.size && !Bit(fs.g, fs.blocks, c)
    modifies fs
    ensures fs.Valid() && Spliced(fs.g, old(fs.blocks), old(fs.eff), fs.blocks, fs.eff, inum, off, part)
    ensures |fs.logged| == WriteCost(off, off, |part|)
  {
    hide BitsOk, OwnedOk, RefsOk, Dense, Spliced, Touched, Logs, Scattered, Fresh, Span;
    fs.logged := {};
    ghost var s0 := fs.Now();
    var err, ok := fs.Writei(inum, off, part);
    if !ok {
      EnoughFree(fs.g, s0.blocks, s0.eff, s0.owner, fs.blocks, fs.eff, fs.owner, fs.extra, free);
      assert false;
    }
    assert fs.logged - {} == fs.logged;
    SplicedSize(fs.g, s0.blocks, s0.eff, fs.blocks, fs.eff, inum, off, part);
    WorstCaseCost(fs.g, s0.blocks, s0.eff, s0.owner, fs.extra, fs.blocks, fs.eff, fs.owner, {}, fs.logged, inum, off, |part|);
  }

  /** There is a consistent disk with a file of the given size, at most NDIRECT blocks, for
      which writing part at its end is such a case. */
  method WriteCrowded(size: Word, part: seq<Byte>) returns (fs: F.Fs, ghost before: Snapshot)
    requires size <= NDIRECT * BSIZE < size + |part| <= MAXFILE * BSIZE
    ensures fresh(fs) && fs.Valid() && Own(fs.g, before.blocks, before.eff, before.owner, {}) && before.eff[0].size == size
    ensures forall i: nat {:trigger IBlock(fs.g, i)} ::
              i < fs.g.ninodes ==> DecodeInode(before.blocks[IBlock(fs.g, i)], i % IPB) == before.eff[i]
    ensures Spliced(fs.g, before.blocks, before.eff, fs.blocks, fs.eff, 0, size, part)
    ensures |fs.logged| == WriteCost(size, size, |part|)
  {
    hide Image, Inodes, Owners, WorstCase, Spliced, BitsOk, OwnedOk, RefsOk, FreeBlocks;
    CrowdedOwn(size);
    CrowdedWorst(size, |part|);
    fs := new F.Fs.Mount(Crowded(Have(size)), Image(size), Inodes(size), Owners(size));
    var panicked := fs.Ilock(0);
    before := fs.Now();
    WriteWorstCase(fs, 0, size, part, FreeBlocks(13132 + Have(size), FREE));
  }

  /** The chunk size is tight: on some consistent disk a full chunk logs MAXOPBLOCKS blocks, and
      for every larger chunk there is one on which it logs more. */
  method ChunkIsTight(part: seq<Byte>) returns (fs: F.Fs, ghost before: Snapshot)
    requires MAXCHUNK <= |part| <= MAXFILE * BSIZE
    ensures fresh(fs) && fs.Valid() && Own(fs.g, before.blocks, before.eff, before.owner, {}) && before.eff[0].size <= MAXFILE * BSIZE
    ensures Spliced(fs.g, before.blocks, before.eff, fs.blocks, fs.eff, 0, before.eff[0].size, part)
    ensures if |part| == MAXCHUNK then |fs.logged| == MAXOPBLOCKS else |fs.logged| > MAXOPBLOCKS
  {
    hide Spliced, Own;
    var size := if |part| == MAXCHUNK then 10 * BSIZE + 1
                else if |part| <= (MAXFILE - 10) * BSIZE then 10 * BSIZE else MAXFILE * BSIZE - |part|;
    fs, before := WriteCrowded(size, part);
  }

  lemma SplicedSize(g: Geometry, b0: seq<Block>, e0: seq<Dinode>, b2: seq<Block>, e2: seq<Dinode>,
                    i: nat, off: nat, src: seq<Byte>)
    requires InodesOk(g, e0) && InodesOk(g, e2) && i < |e0| && off <= e0[i].size <= MAXFILE * BSIZE
    requires Spliced(g, b0, e0, b2, e2, i, off, src)
    ensures e2[i].size >= off + |src| && Dense(b2, e2[i]) && KeptRefs(b0, e0, b2, e2)
  {
  }

  /** Files and inodes other than i are as they were. */
  ghost predicate OthersKept(g: Geometry, b0: seq<Block>, e0: seq<Dinode>, b1: seq<Block>, e1: seq<Dinode>, i: nat)
    requires InodesOk(g, e0) && InodesOk(g, e1)
  {
    SameOtherFiles(g, b0, e0, b1, e1, i) && forall j: nat :: j < |e0| && j != i ==> e1[j] == e0[j]
  }

  lemma OthersSame(g: Geometry, b: seq<Block>, e: seq<Dinode>, i: nat)
    requires InodesOk(g, e)
    ensures OthersKept(g, b, e, b, e, i)
  {
  }

  lemma OthersTrans(g: Geometry, b0: seq<Block>, e0: seq<Dinode>, b1: seq<Block>, e1: seq<Dinode>,
                    b2: seq<Block>, e2: seq<Dinode>, i: nat)
    requires InodesOk(g, e0) && InodesOk(g, e1) && InodesOk(g, e2)
    requires OthersKept(g, b0, e0, b1, e1, i) && OthersKept(g, b1, e1, b2, e2, i)
    ensures OthersKept(g, b0, e0, b2, e2, i)
  {
  }

  /** The file, once c0, after the first done bytes of src were written at off; with off
      past the end nothing can be written. */
  ghost predicate WroteSoFar(blocks: seq<Block>, d: Dinode, c0: seq<Byte>, off: nat, src: seq<Byte>, done: nat)
    requires DinodeOk(d)
  {
    && Dense(blocks, d) && done <= |src|
    && if off <= |c0| then off + done <= MAXFILE * BSIZE && Content(blocks, d) == Splice(c0, off, src[..done])
       else done == 0 && Content(blocks, d) == c0
  }

  lemma WroteMore(g: Geometry, b1: seq<Block>, e1: seq<Dinode>, b2: seq<Block>, e2: seq<Dinode>, i: nat,
                  c0: seq<Byte>, off: nat, src: seq<Byte>, done: nat, more: nat)
    requires InodesOk(g, e1) && InodesOk(g, e2) && i < |e1| && WroteSoFar(b1, e1[i], c0, off, src, done)
    requires done + more <= |src| && off + done <= e1[i].size <= MAXFILE * BSIZE && off + done + more <= MAXFILE * BSIZE
    requires Spliced(g, b1, e1, b2, e2, i, off + done, src[done..done + more])
    ensures WroteSoFar(b2, e2[i], c0, off, src, done + more)
  {
  }

  lemma WroteNone(blocks: seq<Block>, d: Dinode, off: nat, src: seq<Byte>)
    requires DinodeOk(d) && Dense(blocks, d)
    ensures WroteSoFar(blocks, d, Content(blocks, d), off, src, 0) && |Content(blocks, d)| == d.size
  {
    var c := Content(blocks, d);
    assert off <= |c| ==> Splice(c, off, src[..0]) == c;
  }

  lemma SplicedKeeps(g: Geometry, b0: seq<Block>, e0: seq<Dinode>, b2: seq<Block>, e2: seq<Dinode>,
                     i: nat, off: nat, src: seq<Byte>)
    requires InodesOk(g, e0) && InodesOk(g, e2) && i < |e0| && off <= e0[i].size <= MAXFILE * BSIZE
    requires Spliced(g, b0, e0, b2, e2, i, off, src)
    ensures OthersKept(g, b0, e0, b2, e2, i)
  {
  }

  /** The first done bytes reached the file, and files and inodes other than i are as they
      were in b0 and e0. */
  ghost predicate Wrote(g: Geometry, b0: seq<Block>, e0: seq<Dinode>, b: seq<Block>, e: seq<Dinode>, i: nat,
                        off: nat, src: seq<Byte>, done: nat)
    requires InodesOk(g, e0) && InodesOk(g, e) && i < |e0| && e0[i].size <= MAXFILE * BSIZE
  {
    WroteSoFar(b, e[i], Content(b0, e0[i]), off, src, done) && OthersKept(g, b0, e0, b, e, i)
  }

  lemma WroteStart(g: Geometry, b: seq<Block>, e: seq<Dinode>, i: nat, off: nat, src: seq<Byte>)
    requires InodesOk(g, e) && i < |e| && Dense(b, e[i])
    ensures Wrote(g, b, e, b, e, i, off, src, 0)
  {
    WroteNone(b, e[i], off, src);
    OthersSame(g, b, e, i);
  }

  /** What the next chunk may rely on. */
  lemma WroteSize(g: Geometry, b0: seq<Block>, e0: seq<Dinode>, b: seq<Block>, e: seq<Dinode>, i: nat,
                  off: nat, src: seq<Byte>, done: nat)
    requires InodesOk(g, e0) && InodesOk(g, e) && i < |e0| && e0[i].size <= MAXFILE * BSIZE
    requires Wrote(g, b0, e0, b, e, i, off, src, done)
    ensures Dense(b, e[i]) && e[i].size <= MAXFILE * BSIZE && (off + done > e[i].size <==> off > e0[i].size)
  {
    assert |Content(b, e[i])| == e[i].size && |Content(b0, e0[i])| == e0[i].size;
  }

  lemma WroteNext(g: Geometry, b0: seq<Block>, e0: seq<Dinode>, b1: seq<Block>, e1: seq<Dinode>, b2: seq<Block>, e2: seq<Dinode>,
                  i: nat, off: nat, src: seq<Byte>, done: nat, more: nat)
    requires InodesOk(g, e0) && InodesOk(g, e1) && InodesOk(g, e2) && i < |e0| && e0[i].size <= MAXFILE * BSIZE
    requires Wrote(g, b0, e0, b1, e1, i, off, src, done)
    requires done + more <= |src| && off + done <= e1[i].size <= MAXFILE * BSIZE && off + done + more <= MAXFILE * BSIZE
    requires Spliced(g, b1, e1, b2, e2, i, off + done, src[done..done + more])
    ensures Wrote(g, b0, e0, b2, e2, i, off, src, done + more)
  {
    hide Spliced, WroteSoFar, OthersKept;
    WroteMore(g, b1, e1, b2, e2, i, Content(b0, e0[i]), off, src, done, more);
    SplicedKeeps(g, b1, e1, b2, e2, i, off + done, src[done..done + more]);
    OthersTrans(g, b0, e0, b1, e1, b2, e2, i);
  }

  /** After each of these ends of transactions the next MAXCHUNK of the done bytes, or all of
      them, are in the file. */
  ghost predicate Stages(g: Geometry, b0: seq<Block>, e0: seq<Dinode>, ends: seq<Snapshot>, i: nat, off: nat, src: seq<Byte>, done: nat)
    requires InodesOk(g, e0) && i < |e0| && e0[i].size <= MAXFILE * BSIZE
  {
    forall k :: 0 <= k < |ends| ==>
      InodesOk(g, ends[k].eff) && Wrote(g, b0, e0, ends[k].blocks, ends[k].eff, i, off, src, Upto(k + 1, done))
  }

  /** How many of done bytes are in the first k chunks. */
  function Upto(k: nat, done: nat): (n: nat) {
    if k * MAXCHUNK < done then k * MAXCHUNK else done
  }

  lemma StageMore(g: Geometry, b0: seq<Block>, e0: seq<Dinode>, ends: seq<Snapshot>, s: Snapshot, i: nat, off: nat, src: seq<Byte>, done: nat, more: nat)
    requires InodesOk(g, e0) && i < |e0| && e0[i].size <= MAXFILE * BSIZE && InodesOk(g, s.eff)
    requires Stages(g, b0, e0, ends, i, off, src, done) && done == |ends| * MAXCHUNK && more <= MAXCHUNK
    requires Wrote(g, b0, e0, s.blocks, s.eff, i, off, src, done + more)
    ensures Stages(g, b0, e0, ends + [s], i, off, src, done + more)
  {
    hide Wrote;
    assert forall k :: 0 <= k < |ends| ==> (ends + [s])[k] == ends[k] && (k + 1) * MAXCHUNK <= |ends| * MAXCHUNK;
  }

  /** The transactions since the journal held the first ones: they fit the log, there is
      nothing between them and the state s, and each wrote its chunk. */
  ghost predicate Journalled(g: Geometry, s0: Snapshot, first: seq<Snapshot>, ends: seq<Snapshot>, s: Snapshot,
                             i: nat, off: nat, src: seq<Byte>, done: nat)
    requires InodesOk(g, s0.eff) && i < |s0.eff| && s0.eff[i].size <= MAXFILE * BSIZE
  {
    && first <= ends
    && var mine := ends[|first|..];
       Transactions(s0, mine) && Last(s0, mine) == s && Stages(g, s0.blocks, s0.eff, mine, i, off, src, done)
  }

  lemma JournalStart(g: Geometry, s: Snapshot, ends: seq<Snapshot>, i: nat, off: nat, src: seq<Byte>)
    requires InodesOk(g, s.eff) && i < |s.eff| && s.eff[i].size <= MAXFILE * BSIZE
    ensures Journalled(g, s, ends, ends, s, i, off, src, 0)
  {
  }

  lemma JournalMore(g: Geometry, s0: Snapshot, first: seq<Snapshot>, ends: seq<Snapshot>, s: Snapshot, t: Snapshot,
                    i: nat, off: nat, src: seq<Byte>, done: nat, more: nat)
    requires InodesOk(g, s0.eff) && i < |s0.eff| && s0.eff[i].size <= MAXFILE * BSIZE && InodesOk(g, t.eff)
    requires Journalled(g, s0, first, ends, s, i, off, src, done) && FitsLog(s, t)
    requires done == (|ends| - |first|) * MAXCHUNK && more <= MAXCHUNK
    requires Wrote(g, s0.blocks, s0.eff, t.blocks, t.eff, i, off, src, done + more)
    ensures Journalled(g, s0, first, ends + [t], t, i, off, src, done + more)
  {
    hide Wrote, Transactions, Stages, FitsLog;
    var mine := ends[|first|..];
    assert (ends + [t])[|first|..] == mine + [t];
    OneMore(s0, mine, t);
    StageMore(g, s0.blocks, s0.eff, mine, t, i, off, src, done, more);
  }

  /** How many transactions have ended: one for each full chunk and one for the rest; or one
      more than the chunks written, for the writei that failed; or one less, if the kernel has
      stopped in the last one. */
  predicate Turns(count: nat, done: nat, n: int, ok: bool) {
    if !ok then done == count * MAXCHUNK
    else if done < n then done + MAXCHUNK == count * MAXCHUNK
    else done <= count * MAXCHUNK < done + MAXCHUNK
  }

  /** Where filewrite's loop stands after done bytes: they are in the file, other files are as
      they were, and the journal tells by which transactions. */
  ghost predicate Writing(g: Geometry, s0: Snapshot, first: seq<Snapshot>, ends: seq<Snapshot>, s: Snapshot,
                          i: nat, off: nat, src: seq<Byte>, done: nat, n: int)
    requires InodesOk(g, s0.eff) && InodesOk(g, s.eff) && i < |s0.eff| && s0.eff[i].size <= MAXFILE * BSIZE
  {
    && Wrote(g, s0.blocks, s0.eff, s.blocks, s.eff, i, off, src, done)
    && Journalled(g, s0, first, ends, s, i, off, src, done)
    && |ends| >= |first| && Turns(|ends| - |first|, done, n, done >= n)
  }

  /** Where it stands when writei has refused the next chunk. */
  ghost predicate Stopped(g: Geometry, s0: Snapshot, first: seq<Snapshot>, ends: seq<Snapshot>, s: Snapshot,
                          i: nat, off: nat, src: seq<Byte>, done: nat, n: int)
    requires InodesOk(g, s0.eff) && InodesOk(g, s.eff) && i < |s0.eff| && s0.eff[i].size <= MAXFILE * BSIZE
  {
    && Wrote(g, s0.blocks, s0.eff, s.blocks, s.eff, i, off, src, done)
    && Journalled(g, s0, first, ends, s, i, off, src, done)
    && |ends| >= |first| && done < n && Turns(|ends| - |first|, done, n, true)
  }

  lemma WritingStart(g: Geometry, s: Snapshot, ends: seq<Snapshot>, i: nat, off: nat, src: seq<Byte>, n: int)
    requires InodesOk(g, s.eff) && i < |s.eff| && Dense(s.blocks, s.eff[i])
    ensures Writing(g, s, ends, ends, s, i, off, src, 0, n)
  {
    hide Wrote, Journalled;
    WroteStart(g, s.blocks, s.eff, i, off, src);
    JournalStart(g, s, ends, i, off, src);
  }

  /** Another chunk, or the rest. */
  lemma WritingMore(g: Geometry, s0: Snapshot, first: seq<Snapshot>, ends: seq<Snapshot>, s: Snapshot, t: Snapshot,
                    i: nat, off: nat, src: seq<Byte>, done: nat, more: nat, n: int)
    requires InodesOk(g, s0.eff) && InodesOk(g, s.eff) && InodesOk(g, t.eff) && i < |s0.eff| && s0.eff[i].size <= MAXFILE * BSIZE
    requires Writing(g, s0, first, ends, s, i, off, src, done, n) && FitsLog(s, t) && done < n
    requires Wrote(g, s0.blocks, s0.eff, t.blocks, t.eff, i, off, src, done + more)
    requires more == 0 || more == if n - done > MAXCHUNK then MAXCHUNK else n - done
    ensures if more == 0 then Stopped(g, s0, first, ends + [t], t, i, off, src, done, n)
            else Writing(g, s0, first, ends + [t], t, i, off, src, done + more, n)
  {
    hide Wrote, Journalled, FitsLog;
    JournalMore(g, s0, first, ends, s, t, i, off, src, done, more);
  }

  /** The state at the top of filewrite's loop; kept says that the inode was on disk as in
      memory when it started. */
  ghost predicate AtTurn(fs: F.Fs, log: Journal, s0: Snapshot, first: seq<Snapshot>, inum: nat, off: nat, src: seq<Byte>,
                         i: nat, n: int, kept: bool)
    requires InodesOk(fs.g, s0.eff) && inum < |s0.eff| && s0.eff[inum].size <= MAXFILE * BSIZE
    reads fs, log
  {
    && fs.Valid() && inum in fs.ino && !log.outstanding && (kept ==> fs.OnDisk(inum))
    && Writing(fs.g, s0, first, log.ends, fs.Now(), inum, off, src, i, n)
  }

  /** The body of filewrite's loop: the next n1 bytes. */
  method WriteNext(fs: F.Fs, log: Journal, inum: nat, off: Word, src: seq<Byte>, i: nat, n1: nat, ghost n: int,
                   ghost s0: Snapshot, ghost first: seq<Snapshot>, ghost kept: bool)
    returns (err: bool, ok: bool)
    requires i < n <= |src| && off + i < TWO32 && n1 == if n - i > MAXCHUNK then MAXCHUNK else n - i
    requires InodesOk(fs.g, s0.eff) && inum < |s0.eff| && s0.eff[inum].size <= MAXFILE * BSIZE
    requires AtTurn(fs, log, s0, first, inum, off, src, i, n, kept)
    modifies fs, log
    ensures err == (off > s0.eff[inum].size || off + i + n1 > MAXFILE * BSIZE) && (err ==> ok)
    ensures ok && !err ==> AtTurn(fs, log, s0, first, inum, off, src, i + n1, n, kept)
    ensures err ==> fs.Valid() && !log.outstanding && (kept ==> inum < fs.g.ninodes && fs.OnDisk(inum))
    ensures err ==> Stopped(fs.g, s0, first, log.ends, fs.Now(), inum, off, src, i, n)
    ensures !ok ==> fs.Full() && FitsLog(old(fs.Now()), fs.Now()) && log.outstanding && log.ends == old(log.ends)
  {
    hide BitsOk, OwnedOk, RefsOk, Stored, Spliced, Wrote, Dense, FitsLog, Journalled, Turns;
    ghost var s, ends := fs.Now(), log.ends;
    WroteSize(fs.g, s0.blocks, s0.eff, s.blocks, s.eff, inum, off, src, i);
    err, ok := WriteChunk(fs, log, inum, off + i, src[i..i + n1]);
    if ok {
      if !err {
        WroteNext(fs.g, s0.blocks, s0.eff, s.blocks, s.eff, fs.blocks, fs.eff, inum, off, src, i, n1);
      }
      WritingMore(fs.g, s0, first, ends, s, fs.Now(), inum, off, src, i, if err then 0 else n1, n);
    }
  }

  lemma TurnSo(fs: F.Fs, log: Journal, s0: Snapshot, first: seq<Snapshot>, inum: nat, off: nat, src: seq<Byte>,
               i: nat, n: int, kept: bool)
    requires InodesOk(fs.g, s0.eff) && inum < |s0.eff| && s0.eff[inum].size <= MAXFILE * BSIZE
    requires AtTurn(fs, log, s0, first, inum, off, src, i, n, kept)
    ensures fs.Valid() && inum in fs.ino && inum < fs.g.ninodes && InodesOk(fs.g, fs.eff) && !log.outstanding
    ensures (kept ==> fs.OnDisk(inum)) && Writing(fs.g, s0, first, log.ends, fs.Now(), inum, off, src, i, n)
  {
  }

  /** filewrite on an inode file: done bytes reach the file at f->off, every other file and
      inode is left alone, and done falls short of n only if the offset lies past the end
      or the next chunk would pass the maximum file size.  Everything happens in transactions
      that fit the log, each of which writes the next MAXCHUNK bytes or the rest; only a
      transaction that finds no free block is left open, and what it has done since the last
      end, before, fits the log too. */
  method Filewrite(fs: F.Fs, log: Journal, inum: nat, off: Word, src: seq<Byte>, n: int)
    returns (ret: int, ok: bool, newOff: nat, ghost done: nat, ghost before: Snapshot)
    requires fs.Valid() && inum in fs.ino && Dense(fs.blocks, fs.eff[inum]) && n <= |src| && !log.outstanding
    modifies fs, log
    ensures InodesOk(fs.g, before.eff) && log.outstanding == !ok
    ensures if ok && done < n then Stopped(fs.g, old(fs.Now()), old(log.ends), log.ends, before, inum, off, src, done, n)
            else Writing(fs.g, old(fs.Now()), old(log.ends), log.ends, before, inum, off, src, done, n)
    ensures ok ==> fs.Valid() && before == fs.Now() && newOff == off + done && ret == (if done == n then n else -1)
    ensures !ok ==> fs.Full() && done < n && FitsLog(before, fs.Now())
    ensures ok && old(fs.OnDisk(inum)) ==> fs.OnDisk(inum)
    ensures ok && done < n ==>
              || off > old(fs.eff)[inum].size
              || off + done + (if n - done > MAXCHUNK then MAXCHUNK else n - done) > MAXFILE * BSIZE
  {
    hide BitsOk, OwnedOk, RefsOk, Stored, DecodeInode, FitsLog, Writing, Stopped;
    ghost var s0, first, kept := fs.Now(), log.ends, fs.OnDisk(inum);
    WritingStart(fs.g, s0, first, inum, off, src, n);
    assert AtTurn(fs, log, s0, first, inum, off, src, 0, n, kept);
    hide AtTurn, Own, Dense;
    var i: nat := 0;
    newOff, ok := off, true;
    while i < n
      invariant (i <= n || i == 0) && newOff == off + i && ok && newOff < TWO32
      invariant AtTurn(fs, log, s0, first, inum, off, src, i, n, kept)
    {
      var n1 := n - i;
      if n1 > MAXCHUNK {
        n1 := MAXCHUNK;
      }
      var err;
      TurnSo(fs, log, s0, first, inum, off, src, i, n, kept);
      before := fs.Now();
      err, ok := WriteNext(fs, log, inum, off, src, i, n1, n, s0, first, kept);
      if !ok || err {
        done, ret := i, -1;
        if err {
          before := fs.Now();
        }
        return;
      }
      newOff := newOff + n1;
      i := i + n1;
    }
    TurnSo(fs, log, s0, first, inum, off, src, i, n, kept);
    done, before := i, fs.Now();
    ret := if i == n then n else -1;
  }
}
