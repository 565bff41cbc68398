/** log.c as it runs: one object holding the disk, the cached blocks and the in-memory
    header, updated by loops over block[0..n). */
module Log {
  import opened Blocks
  import opened RedoLog
  import opened LogState

  class Log {
    const lay: Layout            // log.start, log.size
    var disk: seq<Block>
    var cache: map<nat, CacheBuf>
    var n: int                   // log.lh.n, a C int
    const block: array<nat>      // log.lh.block
    var outstanding: nat
    var committing: bool
    ghost var writes: seq<Disk>  // the disk after each block write, oldest first

    ghost predicate Sized()
      reads this, block
    {
      block.Length == LOGSIZE && n <= LOGSIZE && Fits(lay, disk)
    }

    ghost function Header(): (h: seq<nat>)
      reads this, block
    {
      if 0 <= n <= block.Length then block[..n] else []
    }

    ghost function Abs(): (k: Kernel)
      reads this, block
    {
      Kernel(disk, cache, Header(), outstanding, committing)
    }

    /** Valid between system calls: the header names distinct home blocks, and these
        are exactly the pinned ones. */
    ghost predicate Valid()
      reads this, block
    {
      && Sized() && Coherent(Abs()) && 0 <= n && Ready(lay, Abs()) && NoDup(Header())
      && (forall b: nat :: Dirty(Abs(), b) <==> b in Header())
    }

    /** initlog: an empty cache over the disk found at boot, which is then recovered. */
    constructor (lay: Layout, disk: seq<Block>)
      requires Fits(lay, disk) && Recoverable(lay, disk)
      ensures Valid() && this.lay == lay && fresh(block) && n == 0 && outstanding == 0 && !committing
      ensures this.disk == Recovered(lay, disk) && writes == RecoverTrace(lay, disk)
    {
      this.lay, this.disk := lay, disk;
      cache, n, outstanding, committing, writes := map[], 0, 0, false, [];
      block := new nat[LOGSIZE](_ => 0);
      new;
      RecoverFromLog();
    }

    // -------------------------------------------------------------- buffers

    method Bread(b: nat) returns (data: Block)
      requires Sized() && Coherent(Abs()) && b < |disk|
      modifies this`cache
      ensures Sized() && Abs() == Fetch(old(Abs()), b) && Fetched(old(Abs()), Abs())
      ensures data == View(old(Abs()), b)
    {
      FetchEffect(Abs(), b);
      if b !in cache {
        cache := cache[b := CacheBuf(disk[b], false)];
      }
      data := cache[b].data;
    }

    method Bwrite(b: nat, data: Block)
      requires Sized() && Coherent(Abs()) && b < |disk|
      modifies this`cache, this`disk, this`writes
      ensures Sized() && Abs() == StoreBlock(old(Abs()), b, data) && Stored(old(Abs()), Abs(), b, data)
      ensures writes == old(writes) + [disk]
    {
      StoreEffect(Abs(), b, data);
      cache := cache[b := CacheBuf(data, false)];
      disk := disk[b := data];
      writes := writes + [disk];
    }

    /** bread both blocks, copy the data across, bwrite the destination. */
    method CopyBlock(src: nat, dst: nat)
      requires Sized() && Coherent(Abs()) && src < |disk| && dst < |disk|
      modifies this`cache, this`disk, this`writes
      ensures Sized() && Stored(old(Abs()), Abs(), dst, View(old(Abs()), src))
      ensures writes == old(writes) + [disk]
    {
      ghost var k := Abs();
      var from := Bread(src);
      ghost var p := Abs();
      var to := Bread(dst);
      ghost var q := Abs();
      to := from;
      Bwrite(dst, to);
      FetchThenStore(k, p, q, Abs(), dst, to);
    }

    // -------------------------------------------------------------- header

    /** The loop of read_head. */
    method CopyHead(buf: Block, count: int)
      requires count <= LOGSIZE == block.Length
      modifies block
      ensures forall j :: 0 <= j < count ==> block[j] == WordAt(buf, j + 1)
    {
      var i := 0;
      while i < count
        invariant 0 <= i && forall j :: 0 <= j < i && j < count ==> block[j] == WordAt(buf, j + 1)
      {
        block[i] := WordAt(buf, i + 1);
        i := i + 1;
      }
    }

    /** The in-memory header takes the count and block numbers of the one on disk. */
    method ReadHead()
      requires Sized() && Coherent(Abs()) && HeadCount(View(Abs(), lay.start)) <= LOGSIZE
      modifies this`cache, this`n, block
      ensures Sized() && n == HeadCount(View(old(Abs()), lay.start))
      ensures Fetched(old(Abs()).(lh := Header()), Abs())
      ensures Header() == HeadBlocks(View(old(Abs()), lay.start))
    {
      ghost var k := Abs();
      var buf := Bread(lay.start);
      ghost var hdr := HeadBlocks(buf);
      n := HeadCount(buf);
      CopyHead(buf, n);
      assert Header() == hdr;
      assert Abs() == Fetch(k, lay.start).(lh := Header());
      FetchEffectLh(k, lay.start, Header());
    }

    /** One write puts the block numbers and their count on disk: before it a crash loses the
        transaction, after it none can. */
    method WriteHead()
      requires Sized() && Coherent(Abs()) && 0 <= n && Words(Header())
      modifies this`cache, this`disk, this`writes
      ensures Sized() && writes == old(writes) + [disk]
      ensures Stored(old(Abs()), Abs(), lay.start, PutHead(View(old(Abs()), lay.start), old(Header())))
    {
      ghost var k := Abs();
      var buf := Bread(lay.start);
      ghost var p := Abs();
      var hb := PutWord(buf, 0, n);
      var i := 0;
      while i < n
        invariant 0 <= i <= n
        invariant hb == PutHeadUpTo(buf, Header(), i)
      {
        hb := PutWord(hb, i + 1, block[i]);
        i := i + 1;
      }
      Bwrite(lay.start, hb);
      FetchThenStore(k, p, p, Abs(), lay.start, hb);
    }

    // -------------------------------------------------------------- commit and recovery

    /** One iteration of install_trans: log block number tail goes home. */
    method InstallOne(ghost k: Kernel, tail: nat)
      requires Sized() && Ready(lay, k) && PinsAtHome(lay, k) && k.lh == Header() && tail < |k.lh|
      requires HomeUpTo(lay, k, Abs(), tail)
      modifies this`cache, this`disk, this`writes
      ensures Sized() && HomeUpTo(lay, k, Abs(), tail + 1) && writes == old(writes) + [disk]
      ensures disk == Install(lay, k.disk, k.lh, tail + 1) && Coherent(Abs())
    {
      ghost var p := Abs();
      CopyBlock(lay.start + tail + 1, block[tail]);
      HomeNext(lay, k, p, Abs(), tail + 1);
    }

    /** Copy the logged blocks home; every intermediate disk is an Install prefix. */
    method InstallTrans()
      requires Sized() && Coherent(Abs()) && Ready(lay, Abs()) && PinsAtHome(lay, Abs())
      modifies this`cache, this`disk, this`writes
      ensures Sized() && HomeUpTo(lay, old(Abs()), Abs(), |Header()|)
      ensures disk == Install(lay, old(disk), old(Header()), |Header()|) && Coherent(Abs())
      ensures writes == old(writes) + InstallTrace(lay, old(disk), old(Header()), |Header()|)
    {
      hide PinsAtHome, HomeUpTo, Coherent;
      ghost var k, w0 := Abs(), writes;
      HomeNone(lay, k);
      var tail := 0;
      while tail < n
        invariant 0 <= tail <= |Header()| && Sized() && HomeUpTo(lay, k, Abs(), tail)
        invariant disk == Install(lay, k.disk, k.lh, tail) && Coherent(Abs())
        invariant writes == w0 + InstallTrace(lay, k.disk, k.lh, tail)
      {
        InstallOne(k, tail);
        tail := tail + 1;
      }
    }

    /** One iteration of write_log: the cached block goes to log block number tail. */
    method LogOne(ghost k: Kernel, tail: nat)
      requires Sized() && Ready(lay, k) && PinsAtHome(lay, k) && k.lh == Header() && tail < |k.lh|
      requires LoggedUpTo(lay, k, Abs(), tail)
      modifies this`cache, this`disk, this`writes
      ensures Sized() && LoggedUpTo(lay, k, Abs(), tail + 1) && writes == old(writes) + [disk]
    {
      ghost var p := Abs();
      CopyBlock(block[tail], lay.start + tail + 1);
      LoggedNext(lay, k, p, Abs(), tail + 1);
    }

    /** Copy the cached versions of the header blocks into the log area. */
    method WriteLogBlocks()
      requires Sized() && Coherent(Abs()) && 0 <= n && Ready(lay, Abs()) && PinsAtHome(lay, Abs())
      modifies this`cache, this`disk, this`writes
      ensures Sized() && LoggedUpTo(lay, old(Abs()), Abs(), n)
      ensures writes == old(writes) + WriteLogTrace(lay, old(disk), old(Header()), Image(old(Abs())), n)
    {
      ghost var k, w0 := Abs(), writes;
      var tail := 0;
      while tail < n
        invariant 0 <= tail <= n && Sized() && LoggedUpTo(lay, k, Abs(), tail)
        invariant writes == w0 + WriteLogTrace(lay, k.disk, k.lh, Image(k), tail)
      {
        LogOne(k, tail);
        tail := tail + 1;
      }
    }

    /** lh.n = 0 and write_head: the transaction is gone from the log. */
    method EraseHead()
      requires Sized() && Coherent(Abs())
      modifies this`cache, this`disk, this`writes, this`n
      ensures Sized() && n == 0 && writes == old(writes) + [disk]
      ensures var e := old(Abs()).(lh := []); Stored(e, Abs(), lay.start, PutHead(View(e, lay.start), []))
    {
      n := 0;
      ghost var e := Abs();
      assert e == old(Abs()).(lh := []) && Coherent(e);
      WriteHead();
    }

    /** The first half of commit: write_log and write_head, up to the commit point. */
    method LogAndMark()
      requires Valid() && n > 0
      modifies this`cache, this`disk, this`writes
      ensures Sized() && Coherent(Abs()) && Ready(lay, Abs()) && PinsAtHome(lay, Abs()) && SameHome(lay, old(Abs()), Abs())
      ensures Abs() == old(Abs()).(disk := Committed(lay, old(disk), Header(), Image(old(Abs()))), cache := cache)
      ensures forall b: nat :: Dirty(Abs(), b) <==> b in Header()
      ensures writes == old(writes) + WriteLogTrace(lay, old(disk), Header(), Image(old(Abs())), |Header()|) + [disk]
    {
      hide LoggedUpTo, PinsAtHome, Stored, SameHome, NoDup;
      ghost var k0 := Abs();
      WriteLogBlocks();     // the data, which no one reads yet
      ghost var k1 := Abs();
      WriteHead();          // from this write on the transaction survives a crash
      CommitHalf(lay, k0, k1, Abs());
    }

    /** The block writes of commit() are exactly the images of CommitImage, so
        CrashAtomicity speaks about a crash after any of them. */
    method Commit()
      requires Valid()
      modifies this`cache, this`disk, this`writes, this`n
      ensures Valid() && n == 0 && outstanding == old(outstanding) && committing == old(committing)
      ensures old(n) == 0 ==> Abs() == old(Abs()) && writes == old(writes)
      ensures old(n) > 0 ==>
                && disk == CommitImage(lay, old(disk), old(Header()), Image(old(Abs())), 2 * old(n) + 2)
                && writes == old(writes) + CommitTrace(lay, old(disk), old(Header()), Image(old(Abs())))
      ensures SameHome(lay, old(Abs()), Abs())
    {
      hide HomeUpTo, PinsAtHome, Stored, Coherent;
      if n > 0 {
        ghost var k0, w0 := Abs(), writes;
        LogAndMark();
        ghost var k2 := Abs();
        InstallTrans();       // crash here: recovery repeats it
        ghost var k3 := Abs();
        EraseHead();          // crash before here: recovery starts over
        CommitEffect(lay, k0, k2, k3, k3.(lh := []), Abs());
        CommitTraceAfter(w0, lay, k0.disk, k0.lh, Image(k0));
      }
    }

    /** Boot-time recovery: its block writes are the images of RecoverImage. */
    method RecoverFromLog()
      requires Sized() && Coherent(Abs()) && Recoverable(lay, disk) && forall b: nat :: !Dirty(Abs(), b)
      modifies this`cache, this`disk, this`writes, this`n, block
      ensures Valid() && n == 0 && disk == Recovered(lay, old(disk))
      ensures writes == old(writes) + RecoverTrace(lay, old(disk))
      ensures outstanding == old(outstanding) && committing == old(committing)
    {
      ghost var k0, w := Abs(), writes;
      assert !Dirty(k0, lay.start);
      ReadHead();
      ghost var k := Abs();
      assert forall b: nat :: Dirty(k0.(lh := k.lh), b) <==> Dirty(k0, b);
      hide HomeUpTo, Stored, Fetched;
      InstallTrans();       // nothing to do for an empty header
      ghost var h := Abs();
      EraseHead();          // a second recovery finds nothing
      RecoverEffect(lay, k, h, h.(lh := []), Abs());
      assert writes == w + RecoverTrace(lay, k0.disk);
    }

    // -------------------------------------------------------------- system calls

    /** One pass of begin_op's loop: the operation is admitted, or it sleeps. */
    method BeginOp() returns (admitted: bool)
      requires Valid()
      modifies this`outstanding
      ensures Valid() && admitted == MayBegin(old(Abs()))
      ensures Abs() == if admitted then old(Abs()).(outstanding := old(outstanding) + 1) else old(Abs())
    {
      if committing {
        admitted := false;
      } else if n + (outstanding + 1) * MAXOPBLOCKS > LOGSIZE {
        admitted := false;
      } else {
        outstanding := outstanding + 1;
        admitted := true;
      }
    }

    /** The caller's modified buffer for block b, recorded and pinned; or a panic. */
    method LogWriteBlock(b: nat, data: Block) returns (panicked: bool)
      requires Valid() && b < |disk| && !InLog(lay, b)
      modifies this`cache, this`n, block
      ensures Valid() && panicked == LogWritePanics(lay, old(Abs()))
      ensures Abs() == if panicked then old(Abs()) else LogWrite(old(Abs()), b, data)
    {
      if n >= LOGSIZE || n >= lay.size - 1 {
        return true;
      }
      if outstanding < 1 {
        return true;
      }
      ghost var k := Abs();
      LogWriteEffect(k, b, data);
      var i := 0;
      while i < n && block[i] != b
        invariant 0 <= i <= n
        invariant b !in block[..i]
      {
        i := i + 1;
      }
      block[i] := b;
      if i == n {
        n := n + 1;
      }
      assert Header() == Absorb(k.lh, b);
      cache := cache[b := CacheBuf(data, true)];
      panicked := false;
    }

    /** end_op: the last outstanding operation commits everything logged so far. */
    method EndOp() returns (panicked: bool)
      requires Valid() && outstanding >= 1
      modifies this`outstanding, this`committing, this`cache, this`disk, this`writes, this`n
      ensures panicked == old(committing)
      ensures !panicked ==> Valid() && !committing && outstanding == old(outstanding) - 1
      ensures !panicked && (outstanding > 0 || old(n) == 0) ==>
                disk == old(disk) && writes == old(writes) && cache == old(cache) && Header() == old(Header())
      ensures !panicked && outstanding == 0 && old(n) > 0 ==>
                && n == 0 && writes == old(writes) + CommitTrace(lay, old(disk), old(Header()), Image(old(Abs())))
                && disk == CommitImage(lay, old(disk), old(Header()), Image(old(Abs())), 2 * old(n) + 2)
      ensures !panicked ==> |disk| == |old(disk)| && SameHome(lay, old(Abs()), Abs())
    {
      hide NoDup, CommitTrace, CommitImage;
      ghost var k := Abs();
      outstanding := outstanding - 1;
      if committing {
        return true;
      }
      if outstanding == 0 {
        committing := true;
        assert Image(Abs()) == Image(k);
        Commit();
        committing := false;
      }
      panicked := false;
    }
  }
}
