/** Group commit as a step system: any number of operations interleave
    begin_op / log_write / end_op, the last end_op commits one block write at a time,
    any process may read blocks, and the machine may crash (or panic) in every state.
    log_write is two steps, because its guard reads the header before the log is locked.
    The cache has NBUF buffers: a block enters it only if a buffer is free, and a buffer is
    freed only while it is clean and nobody refers to it; where bget finds none and panics,
    the step is not enabled.  History variables record what each operation wrote. */
module GroupCommit {
  import opened Blocks
  import opened RedoLog
  import opened LogState

  datatype BlockWrite = BlockWrite(op: nat, block: nat, data: Block)

  /** Inside log_write: the guard was passed for this block, whose buffer is held and which
      is not recorded yet. */
  datatype Pending = NoWrite | Passed(block: nat, data: Block)

  /** An operation between begin_op and end_op, with the writes it has logged. */
  datatype Op = Op(id: nat, writes: seq<BlockWrite>, pending: Pending)

  /** Where the committing or recovering process stands; k counts finished block writes. */
  datatype Pc = Running | Logging(k: nat) | Installing(k: nat) | Closing | Recovering(k: nat)

  datatype State = State(
    k: Kernel,
    refs: multiset<nat>,                // blocks whose buffers are held outside log_write
    pc: Pc,
    active: seq<Op>,                    // outstanding operations
    txn: seq<BlockWrite>,               // writes logged since the last commit, in order
    commits: seq<seq<BlockWrite>>,      // transactions whose header reached the disk
    ended: map<nat, seq<BlockWrite>>,   // all writes of each operation that has ended
    nextId: nat)

  datatype Step =
    | BeginOp
    | OpGuard(j: nat, block: nat, data: Block)   // by the j-th outstanding operation
    | OpRecord(j: nat)
    | EndOp(j: nat)
    | LogBlock
    | CommitHead
    | InstallBlock
    | ClearHead
    | Close
    | Bread(b: nat)
    | Brelse(b: nat)
    | Evict(b: nat)
    | Crash

  // ---------------------------------------------------------------- steps

  /** No operation holds the locked buffer of block b. */
  predicate BufferFree(active: seq<Op>, b: nat) {
    forall i :: 0 <= i < |active| ==> !(active[i].pending.Passed? && active[i].pending.block == b)
  }

  /** There are buffers for these blocks besides those in use. */
  predicate HasBuffers(k: Kernel, bs: set<nat>) {
    |k.cache.Keys + bs| <= NBUF
  }

  /** There are buffers for the n-th block of the header and its place in the log. */
  predicate CopyBuffers(lay: Layout, k: Kernel, n: nat)
    requires n < |k.lh|
  {
    HasBuffers(k, {lay.start + 1 + n, k.lh[n]})
  }

  predicate Enabled(lay: Layout, s: State, step: Step) {
    match step
    case BeginOp => s.pc.Running? && MayBegin(s.k)
    case OpGuard(j, b, data) =>
      && s.pc.Running? && j < |s.active| && s.active[j].pending.NoWrite?
      && b < |s.k.disk| && !InLog(lay, b)
      && BufferFree(s.active, b) && HasBuffers(s.k, {b})
      && !LogWritePanics(lay, s.k)
    case OpRecord(j) =>
      s.pc.Running? && j < |s.active| && s.active[j].pending.Passed? && s.active[j].pending.block < |s.k.disk|
    case EndOp(j) =>
      s.pc.Running? && j < |s.active| && s.active[j].pending.NoWrite? && s.k.outstanding >= 1 && !s.k.committing
    case LogBlock => s.pc.Logging? && s.pc.k < |s.k.lh| && s.k.lh[s.pc.k] < |s.k.disk|
                     && lay.start + 1 + s.pc.k < |s.k.disk| && CopyBuffers(lay, s.k, s.pc.k)
    case CommitHead => s.pc.Logging? && s.pc.k == |s.k.lh| && Words(s.k.lh) && lay.start < |s.k.disk|
                       && HasBuffers(s.k, {lay.start})
    case InstallBlock => (s.pc.Installing? || s.pc.Recovering?) && s.pc.k < |s.k.lh|
                         && s.k.lh[s.pc.k] < |s.k.disk| && lay.start + 1 + s.pc.k < |s.k.disk|
                         && CopyBuffers(lay, s.k, s.pc.k)
    case ClearHead => (s.pc.Installing? || s.pc.Recovering?) && s.pc.k == |s.k.lh| && lay.start < |s.k.disk|
                      && HasBuffers(s.k, {lay.start})
    case Close => s.pc.Closing?
    case Bread(b) => b < |s.k.disk| && HasBuffers(s.k, {b})
    case Brelse(b) => b in s.refs
    case Evict(b) => b in s.k.cache && !s.k.cache[b].dirty && b !in s.refs && BufferFree(s.active, b)
    case Crash => lay.start < |s.k.disk| && HeadCount(s.k.disk[lay.start]) <= LOGSIZE
  }

  /** bread of block b finds neither the block nor a buffer to use for it: bget panics. */
  predicate BgetPanics(s: State, b: nat) {
    && b !in s.k.cache && NBUF <= |s.k.cache.Keys|
    && forall c <- s.k.cache :: s.k.cache[c].dirty || c in s.refs || !BufferFree(s.active, c)
  }

  /** After a crash only the disk is left; initlog starts by reading the header. */
  function Boot(lay: Layout, d: Disk): (k: Kernel)
    requires lay.start < |d| && HeadCount(d[lay.start]) <= LOGSIZE
  {
    Kernel(d, map[], HeadBlocks(d[lay.start]), 0, false)
  }

  function WriteOf(op: Op): (w: BlockWrite)
    requires op.pending.Passed?
  {
    BlockWrite(op.id, op.pending.block, op.pending.data)
  }

  function Next(lay: Layout, s: State, step: Step): (r: State)
    requires Enabled(lay, s, step)
  {
    match step
    case BeginOp =>
      s.(k := s.k.(outstanding := s.k.outstanding + 1),
      active := s.active + [Op(s.nextId, [], NoWrite)], nextId := s.nextId + 1)
    case OpGuard(j, b, data) =>
      s.(k := Fetch(s.k, b), active := s.active[j := s.active[j].(pending := Passed(b, data))])
    case OpRecord(j) =>
      var w := WriteOf(s.active[j]);
      s.(k := LogWrite(s.k, w.block, w.data),
      active := s.active[j := Op(w.op, s.active[j].writes + [w], NoWrite)],
      txn := s.txn + [w])
    case EndOp(j) =>
      var last := s.k.outstanding == 1;
      s.(k := s.k.(outstanding := s.k.outstanding - 1, committing := last),
      pc := if !last then Running else if s.k.lh == [] then Closing else Logging(0),
      active := s.active[..j] + s.active[j + 1..],
      ended := s.ended[s.active[j].id := s.active[j].writes])
    case LogBlock =>
      s.(k := StoreBlock(s.k, lay.start + 1 + s.pc.k, View(s.k, s.k.lh[s.pc.k])), pc := Logging(s.pc.k + 1))
    case CommitHead =>
      s.(k := StoreBlock(s.k, lay.start, PutHead(View(s.k, lay.start), s.k.lh)),
      pc := Installing(0), commits := s.commits + [s.txn], txn := [])
    case InstallBlock =>
      s.(k := StoreBlock(s.k, s.k.lh[s.pc.k], View(s.k, lay.start + 1 + s.pc.k)),
      pc := if s.pc.Installing? then Installing(s.pc.k + 1) else Recovering(s.pc.k + 1))
    case ClearHead =>
      s.(k := StoreBlock(s.k, lay.start, PutHead(View(s.k, lay.start), [])).(lh := []),
      pc := if s.pc.Installing? then Closing else Running)
    case Close => s.(k := s.k.(committing := false), pc := Running)
    case Bread(b) => s.(k := Fetch(s.k, b), refs := s.refs + multiset{b})
    case Brelse(b) => s.(refs := s.refs - multiset{b})
    case Evict(b) => s.(k := s.k.(cache := s.k.cache - {b}))
    case Crash => s.(k := Boot(lay, s.k.disk), refs := multiset{}, pc := Recovering(0), active := [], txn := [])
  }

  // ---------------------------------------------------------------- meaning of writes

  function ApplyWrites(d: Disk, ws: seq<BlockWrite>): (r: Disk)
    ensures |r| == |d|
  {
    if ws == [] then d
    else
      var w := ws[|ws| - 1];
      var r := ApplyWrites(d, ws[..|ws| - 1]);
      if w.block < |d| then r[w.block := w.data] else r
  }

  /** The effect of a sequence of committed transactions. */
  function ApplyCommits(d: Disk, commits: seq<seq<BlockWrite>>): (r: Disk)
    ensures |r| == |d|
  {
    if commits == [] then d
    else ApplyWrites(ApplyCommits(d, commits[..|commits| - 1]), commits[|commits| - 1])
  }

  /** The writes of one operation inside a transaction. */
  function OfOp(ws: seq<BlockWrite>, id: nat): (r: seq<BlockWrite>) {
    if ws == [] then []
    else
      var r := OfOp(ws[..|ws| - 1], id);
      if ws[|ws| - 1].op == id then r + [ws[|ws| - 1]] else r
  }

  function BlocksOf(ws: seq<BlockWrite>): (r: set<nat>) {
    set w <- ws :: w.block
  }

  // ---------------------------------------------------------------- invariant

  /** Block b, outside the log, agrees with img. */
  ghost predicate ViewIs(lay: Layout, k: Kernel, img: Disk) {
    |img| == |k.disk| && forall b :: 0 <= b < |k.disk| && !InLog(lay, b) ==> View(k, b) == img[b]
  }

  /** Exactly the header blocks from number n on are pinned in the cache. */
  ghost predicate Pinned(k: Kernel, n: nat) {
    && (forall t :: n <= t < |k.lh| ==> k.lh[t] in k.cache && k.cache[k.lh[t]].dirty)
    && (forall t :: 0 <= t < n && t < |k.lh| ==> k.lh[t] in k.cache ==> !k.cache[k.lh[t]].dirty)
    && (forall b <- k.cache :: k.cache[b].dirty ==> b in k.lh)
  }

  /** The header names home blocks. */
  ghost predicate Named(lay: Layout, d: Disk, hdr: seq<nat>) {
    |hdr| <= LOGSIZE && forall i :: 0 <= i < |hdr| ==> hdr[i] < |d| && !InLog(lay, hdr[i])
  }

  /** The log area has room for the header's blocks; or they fill the whole cache and
      writing the log has not begun, because there is no buffer to write it with. */
  ghost predicate RoomFor(lay: Layout, n: nat, pc: Pc) {
    n < lay.size || (2 <= lay.size && NBUF <= n && (pc.Running? || pc == Logging(0)))
  }

  /** The log body holds img's version of the first n header blocks. */
  ghost predicate LogHolds(lay: Layout, k: Kernel, img: Disk, n: nat)
    requires Fits(lay, k.disk) && Named(lay, k.disk, k.lh)
  {
    && n <= |k.lh| && n < lay.size && |img| == |k.disk|
    && forall t :: 0 <= t < n ==> k.disk[lay.start + 1 + t] == img[k.lh[t]]
  }

  /** The header is on disk and the first n home blocks carry img. */
  ghost predicate Installed(lay: Layout, k: Kernel, img: Disk, n: nat)
    requires Fits(lay, k.disk) && ValidHeader(lay, k.disk, k.lh)
  {
    && HeadCount(k.disk[lay.start]) <= LOGSIZE && HeadBlocks(k.disk[lay.start]) == k.lh
    && LogHolds(lay, k, img, |k.lh|)
    && n <= |k.lh|
    && (forall t :: 0 <= t < n ==> k.disk[k.lh[t]] == img[k.lh[t]])
    && (forall b :: 0 <= b < |k.disk| && !InLog(lay, b) && b !in k.lh ==> k.disk[b] == img[b])
  }

  /** What the memory and the disk satisfy at each program point: base is the effect of
      the committed transactions, img adds the transaction in progress. */
  ghost predicate KernelInv(lay: Layout, k: Kernel, pc: Pc, base: Disk, img: Disk) {
    && Fits(lay, k.disk) && |base| == |img| == |k.disk|
    && Coherent(k) && NoDup(k.lh) && Named(lay, k.disk, k.lh) && RoomFor(lay, |k.lh|, pc)
    && match pc
       case Running =>
         && !k.committing
         && Clean(lay, k.disk) && SameData(lay, k.disk, base)
         && ViewIs(lay, k, img) && Pinned(k, 0)
       case Logging(n) =>
         && k.committing && k.outstanding == 0 && k.lh != []
         && Clean(lay, k.disk) && SameData(lay, k.disk, base)
         && ViewIs(lay, k, img) && Pinned(k, 0)
         && LogHolds(lay, k, img, n)
       case Installing(n) =>
         && k.committing && k.outstanding == 0 && img == base
         && ViewIs(lay, k, base) && Installed(lay, k, base, n) && Pinned(k, n)
       case Closing =>
         && k.committing && k.outstanding == 0 && k.lh == [] && img == base
         && Clean(lay, k.disk) && SameData(lay, k.disk, base)
         && ViewIs(lay, k, base) && Pinned(k, 0)
       case Recovering(n) =>
         && !k.committing && k.outstanding == 0 && img == base
         && Installed(lay, k, base, n) && Pinned(k, |k.lh|)
  }

  /** A transaction is a union of complete operations. */
  ghost predicate Complete(t: seq<BlockWrite>, ended: map<nat, seq<BlockWrite>>) {
    forall w <- t :: w.op in ended && OfOp(t, w.op) == ended[w.op]
  }

  /** Outstanding operations have distinct, used, not yet ended numbers. */
  ghost predicate ActiveInv(s: State) {
    && s.k.outstanding == |s.active|
    && (forall id <- s.ended :: id < s.nextId)
    && (forall i :: 0 <= i < |s.active| ==> s.active[i].id < s.nextId && s.active[i].id !in s.ended)
    && (forall i, j :: 0 <= i < j < |s.active| ==> s.active[i].id != s.active[j].id)
  }

  /** The transaction in progress is made of all writes of ended operations and all
      writes so far of outstanding ones. */
  ghost predicate TxnInv(s: State) {
    && (forall i :: 0 <= i < |s.active| ==> OfOp(s.txn, s.active[i].id) == s.active[i].writes)
    && (forall w <- s.txn :: w.op < s.nextId && if w.op in s.ended
          then OfOp(s.txn, w.op) == s.ended[w.op]
          else exists i :: 0 <= i < |s.active| && s.active[i].id == w.op)
  }

  ghost predicate HistoryInv(s: State) {
    && (s.pc.Running? || s.pc.Logging? || s.txn == [])
    && (s.pc.Running? || s.pc.Logging? ==> BlocksOf(s.txn) == set b <- s.k.lh)
    && ActiveInv(s) && TxnInv(s)
    && (forall t <- s.commits :: Complete(t, s.ended))
  }

  ghost predicate DiskInv(lay: Layout, init: Disk, s: State) {
    var base := ApplyCommits(init, s.commits);
    KernelInv(lay, s.k, s.pc, base, ApplyWrites(base, s.txn))
  }

  /** What passed the guard is a home block, and the log area has room for some block. */
  ghost predicate PendingInv(lay: Layout, s: State) {
    forall i :: 0 <= i < |s.active| && s.active[i].pending.Passed? ==>
      s.active[i].pending.block < |s.k.disk| && !InLog(lay, s.active[i].pending.block) && 2 <= lay.size
  }

  /** There are no more than NBUF buffers, and the held ones are among them. */
  ghost predicate BuffersInv(s: State) {
    && |s.k.cache.Keys| <= NBUF && (forall b <- s.refs :: b in s.k.cache)
    && (forall op <- s.active :: op.pending.Passed? ==> op.pending.block in s.k.cache)
  }

  ghost predicate Inv(lay: Layout, init: Disk, s: State) {
    DiskInv(lay, init, s) && HistoryInv(s) && PendingInv(lay, s) && BuffersInv(s)
  }

  /** The header has room in memory, and its blocks have room in the log area or leave no
      buffer to write the log with. */
  predicate HeaderFits(lay: Layout, s: State) {
    |s.k.lh| <= LOGSIZE && (|s.k.lh| < lay.size || NBUF <= |s.k.lh|)
  }

  // ---------------------------------------------------------------- kernel steps

  lemma KernelSize(lay: Layout, k: Kernel, pc: Pc, base: Disk, img: Disk)
    requires KernelInv(lay, k, pc, base, img)
    ensures Fits(lay, k.disk) && |base| == |img| == |k.disk| && (forall b <- k.cache :: b < |k.disk|)
    ensures Named(lay, k.disk, k.lh) && RoomFor(lay, |k.lh|, pc)
  {
  }

  lemma LogWritePins(lay: Layout, k: Kernel, img: Disk, b: nat, data: Block)
    requires Coherent(k) && Pinned(k, 0) && ViewIs(lay, k, img) && b < |k.disk|
    ensures var r := LogWrite(k, b, data); Coherent(r) && Pinned(r, 0) && ViewIs(lay, r, img[b := data])
  {
    hide Absorb;
  }

  lemma LogWriteKernel(lay: Layout, k: Kernel, base: Disk, img: Disk, b: nat, data: Block)
    requires KernelInv(lay, k, Running, base, img)
    requires b < |k.disk| && !InLog(lay, b)
    requires |Absorb(k.lh, b)| <= LOGSIZE && RoomFor(lay, |Absorb(k.lh, b)|, Running)
    ensures KernelInv(lay, LogWrite(k, b, data), Running, base, img[b := data])
  {
    hide Coherent, Pinned, ViewIs, NoDup, SameData, Clean, Absorb;
    LogWritePins(lay, k, img, b, data);
  }

  /** A block written inside the log area leaves every home block and pin alone. */
  lemma StoreInLog(lay: Layout, k: Kernel, img: Disk, b: nat, data: Block)
    requires Fits(lay, k.disk) && Coherent(k) && Named(lay, k.disk, k.lh)
    requires Pinned(k, 0) && ViewIs(lay, k, img) && InLog(lay, b)
    ensures var r := StoreBlock(k, b, data);
            Coherent(r) && Pinned(r, 0) && ViewIs(lay, r, img) && SameData(lay, r.disk, k.disk)
  {
  }

  lemma LogMore(lay: Layout, k: Kernel, img: Disk, n: nat)
    requires Fits(lay, k.disk) && Named(lay, k.disk, k.lh) && LogHolds(lay, k, img, n) && n < |k.lh| < lay.size
    requires ViewIs(lay, k, img)
    ensures var r := StoreBlock(k, lay.start + 1 + n, View(k, k.lh[n])); LogHolds(lay, r, img, n + 1)
  {
  }

  lemma LogBlockKernel(lay: Layout, k: Kernel, base: Disk, img: Disk, n: nat)
    requires KernelInv(lay, k, Logging(n), base, img) && n < |k.lh| < lay.size
    ensures KernelInv(lay, StoreBlock(k, lay.start + 1 + n, View(k, k.lh[n])), Logging(n + 1), base, img)
  {
    hide LogHolds, ViewIs, Pinned, Coherent, Installed, NoDup;
    StoreInLog(lay, k, img, lay.start + 1 + n, View(k, k.lh[n]));
    LogMore(lay, k, img, n);
  }

  lemma CommitHeadKernel(lay: Layout, k: Kernel, base: Disk, img: Disk)
    requires KernelInv(lay, k, Logging(|k.lh|), base, img)
    ensures KernelInv(lay, StoreBlock(k, lay.start, PutHead(View(k, lay.start), k.lh)), Installing(0), img, img)
  {
    var head := PutHead(View(k, lay.start), k.lh);
    HeadRoundTrip(View(k, lay.start), k.lh);
    StoreInLog(lay, k, img, lay.start, head);
    var r := StoreBlock(k, lay.start, head);
    forall b | 0 <= b < |k.disk| && !InLog(lay, b) && b !in k.lh ensures r.disk[b] == img[b] {
      assert View(k, b) == k.disk[b];
    }
  }

  /** Copying log block n home keeps the log and extends the installed prefix. */
  lemma InstallOne(lay: Layout, k: Kernel, img: Disk, n: nat)
    requires Fits(lay, k.disk) && ValidHeader(lay, k.disk, k.lh) && NoDup(k.lh) && n < |k.lh|
    requires Coherent(k) && Installed(lay, k, img, n)
    requires lay.start + 1 + n in k.cache ==> !k.cache[lay.start + 1 + n].dirty
    ensures var r := StoreBlock(k, k.lh[n], View(k, lay.start + 1 + n));
            Coherent(r) && Installed(lay, r, img, n + 1) && r.cache[k.lh[n]] == CacheBuf(img[k.lh[n]], false)
  {
    var r := StoreBlock(k, k.lh[n], View(k, lay.start + 1 + n));
    assert View(k, lay.start + 1 + n) == k.disk[lay.start + 1 + n] == img[k.lh[n]];
    assert r.disk == k.disk[k.lh[n] := img[k.lh[n]]];
    assert r.disk[lay.start] == k.disk[lay.start];
    assert LogHolds(lay, r, img, |k.lh|);
  }

  lemma InstallPins(lay: Layout, k: Kernel, img: Disk, n: nat, data: Block)
    requires ValidHeader(lay, k.disk, k.lh) && NoDup(k.lh) && n < |k.lh|
    requires Pinned(k, n) && ViewIs(lay, k, img) && data == img[k.lh[n]]
    ensures var r := StoreBlock(k, k.lh[n], data); Pinned(r, n + 1) && ViewIs(lay, r, img)
  {
  }

  lemma InstallBlockKernel(lay: Layout, k: Kernel, base: Disk, n: nat)
    requires KernelInv(lay, k, Installing(n), base, base) && n < |k.lh|
    ensures KernelInv(lay, StoreBlock(k, k.lh[n], View(k, lay.start + 1 + n)), Installing(n + 1), base, base)
  {
    InstallOne(lay, k, base, n);
    assert View(k, lay.start + 1 + n) == base[k.lh[n]];
    InstallPins(lay, k, base, n, View(k, lay.start + 1 + n));
  }

  lemma RecoverBlockKernel(lay: Layout, k: Kernel, base: Disk, n: nat)
    requires KernelInv(lay, k, Recovering(n), base, base) && n < |k.lh|
    ensures KernelInv(lay, StoreBlock(k, k.lh[n], View(k, lay.start + 1 + n)), Recovering(n + 1), base, base)
  {
    InstallOne(lay, k, base, n);
  }

  lemma ClearHeadKernel(lay: Layout, k: Kernel, base: Disk, pc: Pc)
    requires pc == Installing(|k.lh|) || pc == Recovering(|k.lh|)
    requires KernelInv(lay, k, pc, base, base)
    ensures KernelInv(lay, StoreBlock(k, lay.start, PutHead(View(k, lay.start), [])).(lh := []),
                      if pc.Installing? then Closing else Running, base, base)
  {
    HeadRoundTrip(View(k, lay.start), []);
  }

  /** Clean copies may come and go. */
  lemma CachePins(k: Kernel, r: Kernel, b: nat, n: nat)
    requires b < |k.disk| && Coherent(k) && Pinned(k, n)
    requires r == Fetch(k, b) || (b in k.cache && !k.cache[b].dirty && r == k.(cache := k.cache - {b}))
    ensures Coherent(r) && Pinned(r, n)
    ensures forall c :: 0 <= c < |k.disk| ==> View(r, c) == View(k, c)
  {
  }

  lemma CacheViews(lay: Layout, k: Kernel, r: Kernel, img: Disk)
    requires r == k.(cache := r.cache) && (forall c :: 0 <= c < |k.disk| ==> View(r, c) == View(k, c))
    ensures ViewIs(lay, k, img) ==> ViewIs(lay, r, img)
  {
  }

  lemma CacheKernel(lay: Layout, k: Kernel, r: Kernel, b: nat, pc: Pc, base: Disk, img: Disk)
    requires KernelInv(lay, k, pc, base, img) && b < |k.disk|
    requires r == Fetch(k, b) || (b in k.cache && !k.cache[b].dirty && r == k.(cache := k.cache - {b}))
    ensures KernelInv(lay, r, pc, base, img)
  {
    hide ViewIs, Pinned, NoDup, Named, Clean, SameData, Coherent;
    var n := if pc.Installing? then pc.k else if pc.Recovering? then |k.lh| else 0;
    CachePins(k, r, b, n);
    assert r == k.(cache := r.cache);
    hide Fetch, View;
    CacheViews(lay, k, r, img);
    CacheViews(lay, k, r, base);
  }

  // ---------------------------------------------------------------- history steps

  lemma ApplyOne(d: Disk, ws: seq<BlockWrite>, w: BlockWrite)
    requires w.block < |d|
    ensures ApplyWrites(d, ws + [w]) == ApplyWrites(d, ws)[w.block := w.data]
  {
  }

  lemma OfOpOne(ws: seq<BlockWrite>, w: BlockWrite, id: nat)
    ensures OfOp(ws + [w], id) == if w.op == id then OfOp(ws, id) + [w] else OfOp(ws, id)
  {
  }

  lemma {:induction false} OfOpFresh(ws: seq<BlockWrite>, id: nat)
    requires forall w <- ws :: w.op != id
    ensures OfOp(ws, id) == []
  {
    if ws != [] { OfOpFresh(ws[..|ws| - 1], id); }
  }

  lemma ApplyCommit(d: Disk, commits: seq<seq<BlockWrite>>, txn: seq<BlockWrite>)
    ensures ApplyCommits(d, commits + [txn]) == ApplyWrites(ApplyCommits(d, commits), txn)
  {
  }

  lemma CompleteMore(t: seq<BlockWrite>, ended: map<nat, seq<BlockWrite>>, id: nat, ws: seq<BlockWrite>)
    requires Complete(t, ended) && id !in ended
    ensures Complete(t, ended[id := ws])
  {
  }

  lemma BeginOpTxn(s: State, r: State)
    requires ActiveInv(s) && TxnInv(s)
    requires r.active == s.active + [Op(s.nextId, [], NoWrite)] && r.nextId == s.nextId + 1
    requires r.ended == s.ended && r.txn == s.txn && r.k.outstanding == s.k.outstanding + 1
    ensures ActiveInv(r) && TxnInv(r)
  {
    OfOpFresh(s.txn, s.nextId);
    forall w | w in s.txn && w.op !in s.ended
      ensures exists i :: 0 <= i < |r.active| && r.active[i].id == w.op
    {
      var i :| 0 <= i < |s.active| && s.active[i].id == w.op;
      assert r.active[i].id == w.op;
    }
  }

  lemma RecordTxn(s: State, r: State, j: nat, w: BlockWrite)
    requires ActiveInv(s) && TxnInv(s) && j < |s.active| && w.op == s.active[j].id
    requires r.active == s.active[j := Op(w.op, s.active[j].writes + [w], NoWrite)] && r.nextId == s.nextId
    requires r.ended == s.ended && r.txn == s.txn + [w] && r.k.outstanding == s.k.outstanding
    ensures ActiveInv(r) && TxnInv(r)
  {
    forall i | 0 <= i < |r.active| ensures r.active[i].id == s.active[i].id
        && OfOp(r.txn, r.active[i].id) == r.active[i].writes {
      OfOpOne(s.txn, w, r.active[i].id);
    }
    forall v | v in r.txn ensures v.op < r.nextId && if v.op in r.ended
          then OfOp(r.txn, v.op) == r.ended[v.op]
          else exists i :: 0 <= i < |r.active| && r.active[i].id == v.op
    {
      OfOpOne(s.txn, w, v.op);
      if v == w {
        assert r.active[j].id == v.op;
      } else {
        assert v in s.txn;
        if v.op !in s.ended {
          var i :| 0 <= i < |s.active| && s.active[i].id == v.op;
          assert r.active[i].id == v.op;
        }
      }
    }
  }

  lemma EndOpTxn(s: State, r: State, j: nat)
    requires ActiveInv(s) && TxnInv(s) && j < |s.active|
    requires r.active == s.active[..j] + s.active[j + 1..] && r.nextId == s.nextId
    requires r.ended == s.ended[s.active[j].id := s.active[j].writes]
    requires r.txn == s.txn && r.k.outstanding == s.k.outstanding - 1
    ensures ActiveInv(r) && TxnInv(r)
  {
    var id := s.active[j].id;
    forall i | 0 <= i < |r.active|
      ensures exists i' :: 0 <= i' < |s.active| && i' != j && r.active[i] == s.active[i'] && (i < j ==> i' == i) && (i >= j ==> i' == i + 1)
    {
      assert r.active[i] == s.active[if i < j then i else i + 1];
    }
    forall w | w in s.txn ensures w.op < r.nextId && if w.op in r.ended
          then OfOp(s.txn, w.op) == r.ended[w.op]
          else exists i :: 0 <= i < |r.active| && r.active[i].id == w.op
    {
      if w.op !in r.ended {
        var i :| 0 <= i < |s.active| && s.active[i].id == w.op;
        assert r.active[if i < j then i else i - 1] == s.active[i];
      }
    }
  }

  lemma RecordDisk(lay: Layout, init: Disk, s: State, j: nat)
    requires DiskInv(lay, init, s) && PendingInv(lay, s) && Enabled(lay, s, OpRecord(j))
    requires HeaderFits(lay, Next(lay, s, OpRecord(j)))
    ensures DiskInv(lay, init, Next(lay, s, OpRecord(j)))
  {
    hide KernelInv, MayBegin;
    KernelSize(lay, s.k, s.pc, ApplyCommits(init, s.commits), ApplyWrites(ApplyCommits(init, s.commits), s.txn));
    var base, w := ApplyCommits(init, s.commits), WriteOf(s.active[j]);
    ApplyOne(base, s.txn, w);
    LogWriteKernel(lay, s.k, base, ApplyWrites(base, s.txn), w.block, w.data);
  }

  lemma RecordHistory(lay: Layout, s: State, j: nat)
    requires HistoryInv(s) && Enabled(lay, s, OpRecord(j))
    ensures HistoryInv(Next(lay, s, OpRecord(j)))
  {
    var r, w := Next(lay, s, OpRecord(j)), WriteOf(s.active[j]);
    RecordTxn(s, r, j, w);
    assert BlocksOf(r.txn) == BlocksOf(s.txn) + {w.block};
    assert (set c <- r.k.lh) == (set c <- s.k.lh) + {w.block};
  }

  lemma GuardHistory(lay: Layout, s: State, j: nat, b: nat, data: Block)
    requires HistoryInv(s) && Enabled(lay, s, OpGuard(j, b, data))
    ensures HistoryInv(Next(lay, s, OpGuard(j, b, data)))
  {
    var r := Next(lay, s, OpGuard(j, b, data));
    assert forall i :: 0 <= i < |s.active| ==> r.active[i].id == s.active[i].id && r.active[i].writes == s.active[i].writes;
    forall w | w in s.txn && w.op !in s.ended ensures exists i :: 0 <= i < |r.active| && r.active[i].id == w.op {
      var i :| 0 <= i < |s.active| && s.active[i].id == w.op;
      assert r.active[i].id == w.op;
    }
  }

  lemma EndOpHistory(lay: Layout, s: State, j: nat)
    requires HistoryInv(s) && Enabled(lay, s, EndOp(j))
    ensures HistoryInv(Next(lay, s, EndOp(j)))
    ensures s.k.lh == [] ==> s.txn == []
  {
    var r := Next(lay, s, EndOp(j));
    EndOpTxn(s, r, j);
    forall t | t in s.commits ensures Complete(t, r.ended) {
      CompleteMore(t, s.ended, s.active[j].id, s.active[j].writes);
    }
    if s.k.lh == [] {
      assert s.txn == [] by { assert s.txn != [] ==> s.txn[0].block in BlocksOf(s.txn); }
    }
  }

  lemma EndOpDisk(lay: Layout, init: Disk, s: State, j: nat)
    requires DiskInv(lay, init, s) && Enabled(lay, s, EndOp(j)) && (s.k.lh == [] ==> s.txn == [])
    ensures DiskInv(lay, init, Next(lay, s, EndOp(j)))
  {
  }

  lemma CommitHeadDisk(lay: Layout, init: Disk, s: State)
    requires DiskInv(lay, init, s) && Enabled(lay, s, CommitHead)
    ensures DiskInv(lay, init, Next(lay, s, CommitHead))
  {
    hide KernelInv, StoreBlock, View, LogWritePanics, MayBegin, BufferFree, HasBuffers, CopyBuffers, Fetch, LogWrite, Boot;
    var base := ApplyCommits(init, s.commits);
    ApplyCommit(init, s.commits, s.txn);
    CommitHeadKernel(lay, s.k, base, ApplyWrites(base, s.txn));
  }

  lemma CommitHeadHistory(lay: Layout, s: State)
    requires HistoryInv(s) && Enabled(lay, s, CommitHead) && s.active == []
    ensures HistoryInv(Next(lay, s, CommitHead))
  {
  }

  /** While there is a buffer for a log block, the header's blocks do not fill the cache. */
  lemma BufferLeft(lay: Layout, k: Kernel, pc: Pc, base: Disk, img: Disk)
    requires KernelInv(lay, k, pc, base, img) && pc.Logging? && pc.k < |k.lh| && CopyBuffers(lay, k, pc.k)
    ensures |k.lh| < lay.size
  {
    hide ViewIs, Coherent, LogHolds, SameData, Clean;
    if |k.lh| >= lay.size {
      assert lay.start + 1 !in k.lh;
      NoDupCard(k.lh + [lay.start + 1], k.cache.Keys + {lay.start + 1, k.lh[0]});
      assert false;
    }
  }

  lemma LogBlockDisk(lay: Layout, init: Disk, s: State)
    requires DiskInv(lay, init, s) && Enabled(lay, s, LogBlock)
    ensures DiskInv(lay, init, Next(lay, s, LogBlock))
  {
    hide KernelInv, StoreBlock, View, LogWritePanics, MayBegin, BufferFree, HasBuffers, CopyBuffers, Fetch, LogWrite, Boot;
    var base, n := ApplyCommits(init, s.commits), s.pc.k;
    var img := ApplyWrites(base, s.txn);
    BufferLeft(lay, s.k, s.pc, base, img);
    var r := s.(k := StoreBlock(s.k, lay.start + 1 + n, View(s.k, s.k.lh[n])), pc := Logging(n + 1));
    assert Next(lay, s, LogBlock) == r;
    hide Enabled, Next;
    LogBlockKernel(lay, s.k, base, img, n);
  }

  lemma InstallBlockDisk(lay: Layout, init: Disk, s: State)
    requires DiskInv(lay, init, s) && Enabled(lay, s, InstallBlock) && s.txn == [] && s.pc.Installing?
    ensures DiskInv(lay, init, Next(lay, s, InstallBlock))
  {
    hide KernelInv, StoreBlock, View, LogWritePanics, MayBegin, BufferFree, HasBuffers, CopyBuffers, Fetch, LogWrite, Boot;
    var base, n := ApplyCommits(init, s.commits), s.pc.k;
    var k := StoreBlock(s.k, s.k.lh[n], View(s.k, lay.start + 1 + n));
    assert Next(lay, s, InstallBlock) == s.(k := k, pc := Installing(n + 1));
    InstallBlockKernel(lay, s.k, base, n);
  }

  lemma RecoverBlockDisk(lay: Layout, init: Disk, s: State)
    requires DiskInv(lay, init, s) && Enabled(lay, s, InstallBlock) && s.txn == [] && s.pc.Recovering?
    ensures DiskInv(lay, init, Next(lay, s, InstallBlock))
  {
    hide KernelInv, StoreBlock, View, LogWritePanics, MayBegin, BufferFree, HasBuffers, CopyBuffers, Fetch, LogWrite, Boot;
    var base, n := ApplyCommits(init, s.commits), s.pc.k;
    var k := StoreBlock(s.k, s.k.lh[n], View(s.k, lay.start + 1 + n));
    assert Next(lay, s, InstallBlock) == s.(k := k, pc := Recovering(n + 1));
    RecoverBlockKernel(lay, s.k, base, n);
  }

  lemma ClearHeadDisk(lay: Layout, init: Disk, s: State)
    requires DiskInv(lay, init, s) && Enabled(lay, s, ClearHead) && s.txn == []
    ensures DiskInv(lay, init, Next(lay, s, ClearHead))
  {
    hide KernelInv, StoreBlock, View, LogWritePanics, MayBegin, BufferFree, HasBuffers, CopyBuffers, Fetch, LogWrite, Boot;
    ClearHeadKernel(lay, s.k, ApplyCommits(init, s.commits), s.pc);
  }

  lemma CacheDisk(lay: Layout, init: Disk, s: State, step: Step)
    requires DiskInv(lay, init, s) && Enabled(lay, s, step) && (step.OpGuard? || step.Bread? || step.Evict?)
    ensures DiskInv(lay, init, Next(lay, s, step))
  {
    var base := ApplyCommits(init, s.commits);
    hide KernelInv, View, LogWritePanics, BufferFree, HasBuffers;
    KernelSize(lay, s.k, s.pc, base, ApplyWrites(base, s.txn));
    var b := if step.OpGuard? then step.block else step.b;
    CacheKernel(lay, s.k, Next(lay, s, step).k, b, s.pc, base, ApplyWrites(base, s.txn));
  }

  lemma CrashDisk(lay: Layout, init: Disk, s: State)
    requires DiskInv(lay, init, s) && Enabled(lay, s, Crash)
    ensures DiskInv(lay, init, Next(lay, s, Crash))
  {
  }

  /** Steps of the committer and of the cache leave the operations' history alone. */
  lemma QuietHistory(lay: Layout, s: State, step: Step)
    requires HistoryInv(s) && Enabled(lay, s, step)
    requires step.LogBlock? || step.InstallBlock? || step.ClearHead? || step.Bread? || step.Brelse? || step.Evict? || step.Crash?
             || (step.Close? && s.k.lh == [])
    ensures HistoryInv(Next(lay, s, step))
  {
  }

  lemma StepKeepsHistory(lay: Layout, init: Disk, s: State, step: Step)
    requires Inv(lay, init, s) && Enabled(lay, s, step)
    ensures HistoryInv(Next(lay, s, step))
  {
    match step
    case BeginOp => BeginOpTxn(s, Next(lay, s, BeginOp));
    case OpGuard(j, b, data) => GuardHistory(lay, s, j, b, data);
    case OpRecord(j) => RecordHistory(lay, s, j);
    case EndOp(j) => EndOpHistory(lay, s, j);
    case CommitHead => CommitHeadHistory(lay, s);
    case _ => QuietHistory(lay, s, step);
  }

  /** Steps that change no more than the counts and the history. */
  lemma CountDisk(lay: Layout, init: Disk, s: State, step: Step)
    requires DiskInv(lay, init, s) && Enabled(lay, s, step) && (step.BeginOp? || step.Close? || step.Brelse?)
    ensures DiskInv(lay, init, Next(lay, s, step))
  {
    hide SameData, Clean, NoDup, LogHolds, Installed;
  }

  lemma StepKeepsDisk(lay: Layout, init: Disk, s: State, step: Step)
    requires Inv(lay, init, s) && Enabled(lay, s, step) && HeaderFits(lay, Next(lay, s, step))
    ensures DiskInv(lay, init, Next(lay, s, step))
  {
    hide DiskInv, HistoryInv, PendingInv, BuffersInv, Next, HeaderFits;
    match step
    case OpGuard(_, _, _) => CacheDisk(lay, init, s, step);
    case OpRecord(j) => RecordDisk(lay, init, s, j);
    case EndOp(j) => EndOpHistory(lay, s, j); EndOpDisk(lay, init, s, j);
    case CommitHead => CommitHeadDisk(lay, init, s);
    case LogBlock => LogBlockDisk(lay, init, s);
    case InstallBlock => NoTxn(s); if s.pc.Installing? { InstallBlockDisk(lay, init, s); } else { RecoverBlockDisk(lay, init, s); }
    case ClearHead => NoTxn(s); ClearHeadDisk(lay, init, s);
    case Bread(_) => CacheDisk(lay, init, s, step);
    case Evict(_) => CacheDisk(lay, init, s, step);
    case Crash => CrashDisk(lay, init, s);
    case _ => CountDisk(lay, init, s, step);
  }

  lemma NoTxn(s: State)
    requires HistoryInv(s) && (s.pc.Installing? || s.pc.Recovering?)
    ensures s.txn == []
  {
  }

  // ---------------------------------------------------------------- whole runs

  /** The state of the first boot from the disk image d. */
  function Start(lay: Layout, d: Disk): (s: State)
    requires Clean(lay, d)
  {
    State(Boot(lay, d), multiset{}, Recovering(0), [], [], [], map[], 0)
  }

  ghost predicate Run(lay: Layout, s: State, steps: seq<Step>)
    decreases |steps|
  {
    steps != [] ==> Enabled(lay, s, steps[0]) && Run(lay, Next(lay, s, steps[0]), steps[1..])
  }

  ghost function After(lay: Layout, s: State, steps: seq<Step>): (r: State)
    requires Run(lay, s, steps)
    decreases |steps|
  {
    if steps == [] then s else After(lay, Next(lay, s, steps[0]), steps[1..])
  }

  /** A run in whose every state the header fits. */
  ghost predicate FittingRun(lay: Layout, s: State, steps: seq<Step>)
    ensures FittingRun(lay, s, steps) ==> Run(lay, s, steps)
    decreases |steps|
  {
    && HeaderFits(lay, s)
    && (steps != [] ==> Enabled(lay, s, steps[0]) && FittingRun(lay, Next(lay, s, steps[0]), steps[1..]))
  }

  lemma StepKeepsPending(lay: Layout, init: Disk, s: State, step: Step)
    requires Inv(lay, init, s) && Enabled(lay, s, step)
    ensures PendingInv(lay, Next(lay, s, step))
  {
    hide DiskInv, HistoryInv, BuffersInv, View, PutHead, CopyBuffers, HasBuffers, BufferFree;
  }

  /** The step brings in no more blocks than there are buffers for, and drops none. */
  lemma BuffersGrow(s: State, r: State)
    requires BuffersInv(s) && s.k.cache.Keys <= r.k.cache.Keys && |r.k.cache.Keys| <= NBUF
    requires forall b <- r.refs :: b in s.refs || b in r.k.cache
    requires forall op <- r.active :: op in s.active || op.pending == NoWrite || op.pending.block in r.k.cache
    ensures BuffersInv(r)
  {
  }

  lemma OneFewer(keys: set<nat>, a: nat, b: nat)
    ensures |keys + {a}| <= |keys + {a, b}|
  {
    assert keys + {a, b} == keys + {a} + {b};
    if b in keys + {a} {
      assert keys + {a} + {b} == keys + {a};
    }
  }

  /** A block was written while one more buffer was at hand for c. */
  lemma StoreBuffers(s: State, r: State, b: nat, c: nat)
    requires BuffersInv(s) && HasBuffers(s.k, {b, c})
    requires r.k.cache.Keys == s.k.cache.Keys + {b} && r.refs == s.refs && r.active == s.active
    ensures BuffersInv(r)
  {
    OneFewer(s.k.cache.Keys, b, c);
    BuffersGrow(s, r);
  }

  lemma StoreKeys(k: Kernel, b: nat, data: Block)
    requires b < |k.disk|
    ensures StoreBlock(k, b, data).cache.Keys == k.cache.Keys + {b}
  {
  }

  lemma EvictBuffers(lay: Layout, s: State, b: nat)
    requires BuffersInv(s) && Enabled(lay, s, Evict(b))
    ensures BuffersInv(Next(lay, s, Evict(b)))
  {
    assert Next(lay, s, Evict(b)).k.cache.Keys == s.k.cache.Keys - {b};
    forall op <- s.active | op.pending.Passed? ensures op.pending.block != b {
      var i :| 0 <= i < |s.active| && s.active[i] == op;
    }
  }

  lemma HeadBuffers(s: State, r: State, b: nat)
    requires BuffersInv(s) && HasBuffers(s.k, {b})
    requires r.k.cache.Keys == s.k.cache.Keys + {b} && r.refs == s.refs && r.active == s.active
    ensures BuffersInv(r)
  {
    assert {b, b} == {b};
    StoreBuffers(s, r, b, b);
  }

  lemma LogBlockBuffers(lay: Layout, s: State)
    requires BuffersInv(s) && Enabled(lay, s, LogBlock)
    ensures BuffersInv(Next(lay, s, LogBlock))
  {
    hide BuffersInv, View, StoreBlock, LogWritePanics, MayBegin, BufferFree, HasBuffers, Fetch, LogWrite, Boot;
    var b, c := lay.start + 1 + s.pc.k, s.k.lh[s.pc.k];
    assert {b, c} == {c, b} && HasBuffers(s.k, {b, c});
    StoreKeys(s.k, b, View(s.k, c));
    var r := s.(k := StoreBlock(s.k, b, View(s.k, c)), pc := Logging(s.pc.k + 1));
    assert Next(lay, s, LogBlock) == r;
    hide Next, Enabled, CopyBuffers;
    StoreBuffers(s, r, b, c);
  }

  lemma InstallBlockBuffers(lay: Layout, s: State)
    requires BuffersInv(s) && Enabled(lay, s, InstallBlock)
    ensures BuffersInv(Next(lay, s, InstallBlock))
  {
    hide BuffersInv, View, StoreBlock, LogWritePanics, MayBegin, BufferFree, HasBuffers, Fetch, LogWrite, Boot;
    var b, c := s.k.lh[s.pc.k], lay.start + 1 + s.pc.k;
    assert {b, c} == {c, b} && HasBuffers(s.k, {b, c});
    StoreKeys(s.k, b, View(s.k, c));
    var r := s.(k := StoreBlock(s.k, b, View(s.k, c)), pc := if s.pc.Installing? then Installing(s.pc.k + 1) else Recovering(s.pc.k + 1));
    assert Next(lay, s, InstallBlock) == r;
    hide Next, Enabled, CopyBuffers;
    StoreBuffers(s, r, b, c);
  }

  lemma CommitHeadBuffers(lay: Layout, s: State)
    requires BuffersInv(s) && Enabled(lay, s, CommitHead)
    ensures BuffersInv(Next(lay, s, CommitHead))
  {
    hide BuffersInv, HasBuffers, View, PutHead, StoreBlock, LogWritePanics, MayBegin, BufferFree, Fetch, LogWrite, Boot;
    var data := PutHead(View(s.k, lay.start), s.k.lh);
    StoreKeys(s.k, lay.start, data);
    assert Next(lay, s, CommitHead).k == StoreBlock(s.k, lay.start, data);
    HeadBuffers(s, Next(lay, s, CommitHead), lay.start);
  }

  lemma ClearHeadBuffers(lay: Layout, s: State)
    requires BuffersInv(s) && Enabled(lay, s, ClearHead)
    ensures BuffersInv(Next(lay, s, ClearHead))
  {
    hide BuffersInv, HasBuffers, View, PutHead, StoreBlock, LogWritePanics, MayBegin, BufferFree, Fetch, LogWrite, Boot;
    var data := PutHead(View(s.k, lay.start), []);
    StoreKeys(s.k, lay.start, data);
    assert Next(lay, s, ClearHead).k == StoreBlock(s.k, lay.start, data).(lh := []);
    HeadBuffers(s, Next(lay, s, ClearHead), lay.start);
  }

  lemma GuardBuffers(lay: Layout, s: State, j: nat, b: nat, data: Block)
    requires BuffersInv(s) && Enabled(lay, s, OpGuard(j, b, data))
    ensures BuffersInv(Next(lay, s, OpGuard(j, b, data)))
  {
    hide BuffersInv, LogWritePanics, BufferFree;
    assert Next(lay, s, OpGuard(j, b, data)).k.cache.Keys == s.k.cache.Keys + {b};
    BuffersGrow(s, Next(lay, s, OpGuard(j, b, data)));
  }

  lemma RecordBuffers(lay: Layout, s: State, j: nat)
    requires BuffersInv(s) && Enabled(lay, s, OpRecord(j))
    ensures BuffersInv(Next(lay, s, OpRecord(j)))
  {
    hide BuffersInv, Absorb;
    PendingCached(s, j);
    assert Next(lay, s, OpRecord(j)).k.cache.Keys == s.k.cache.Keys;
    BuffersGrow(s, Next(lay, s, OpRecord(j)));
  }

  lemma BreadBuffers(lay: Layout, s: State, b: nat)
    requires BuffersInv(s) && Enabled(lay, s, Bread(b))
    ensures BuffersInv(Next(lay, s, Bread(b)))
  {
    hide BuffersInv;
    assert Next(lay, s, Bread(b)).k.cache.Keys == s.k.cache.Keys + {b};
    BuffersGrow(s, Next(lay, s, Bread(b)));
  }

  lemma StepKeepsBuffers(lay: Layout, s: State, step: Step)
    requires BuffersInv(s) && Enabled(lay, s, step)
    ensures BuffersInv(Next(lay, s, step))
  {
    hide BuffersInv, LogWritePanics, MayBegin, BufferFree, InLog, HasBuffers, StoreBlock, View, PutHead, Fetch, LogWrite;
    match step
    case OpGuard(j, b, data) => GuardBuffers(lay, s, j, b, data);
    case OpRecord(j) => RecordBuffers(lay, s, j);
    case Bread(b) => BreadBuffers(lay, s, b);
    case Evict(b) => EvictBuffers(lay, s, b);
    case Crash => NoBuffers(Next(lay, s, step));
    case LogBlock => LogBlockBuffers(lay, s);
    case InstallBlock => InstallBlockBuffers(lay, s);
    case CommitHead => CommitHeadBuffers(lay, s);
    case ClearHead => ClearHeadBuffers(lay, s);
    case _ => SameBuffers(s, Next(lay, s, step));
  }

  lemma PendingCached(s: State, j: nat)
    requires BuffersInv(s) && j < |s.active| && s.active[j].pending.Passed?
    ensures s.active[j].pending.block in s.k.cache && |s.k.cache.Keys| <= NBUF
  {
  }

  lemma SameBuffers(s: State, r: State)
    requires BuffersInv(s) && r.k.cache == s.k.cache
    requires forall b <- r.refs :: b in s.refs
    requires forall op <- r.active :: op in s.active || op.pending == NoWrite
    ensures BuffersInv(r)
  {
  }

  lemma NoBuffers(s: State)
    requires s.k.cache == map[] && s.refs == multiset{} && s.active == []
    ensures BuffersInv(s)
  {
  }

  /** Every step keeps the invariant as long as the header still fits. */
  lemma StepKeeps(lay: Layout, init: Disk, s: State, step: Step)
    requires Inv(lay, init, s) && Enabled(lay, s, step) && HeaderFits(lay, Next(lay, s, step))
    ensures Inv(lay, init, Next(lay, s, step))
  {
    hide Inv, HistoryInv, DiskInv, PendingInv, BuffersInv, Next, Enabled;
    InvTo(lay, init, s);
    StepKeepsBuffers(lay, s, step);
    StepKeepsDisk(lay, init, s, step);
    StepKeepsHistory(lay, init, s, step);
    StepKeepsPending(lay, init, s, step);
    InvFrom(lay, init, Next(lay, s, step));
  }

  lemma InvFrom(lay: Layout, init: Disk, s: State)
    requires DiskInv(lay, init, s) && HistoryInv(s) && PendingInv(lay, s) && BuffersInv(s)
    ensures Inv(lay, init, s)
  {
  }

  lemma InvTo(lay: Layout, init: Disk, s: State)
    requires Inv(lay, init, s)
    ensures BuffersInv(s)
  {
  }

  lemma {:induction false} RunKeeps(lay: Layout, init: Disk, s: State, steps: seq<Step>)
    requires Inv(lay, init, s) && FittingRun(lay, s, steps)
    ensures Inv(lay, init, After(lay, s, steps))
    decreases |steps|
  {
    if steps != [] {
      StepKeeps(lay, init, s, steps[0]);
      RunKeeps(lay, init, Next(lay, s, steps[0]), steps[1..]);
    }
  }

  lemma StartInv(lay: Layout, d: Disk)
    requires Clean(lay, d)
    ensures Inv(lay, d, Start(lay, d))
  {
  }

  /** Recovery from a disk whose log holds base yields base. */
  lemma RecoverInstalled(lay: Layout, k: Kernel, base: Disk, n: nat)
    requires Fits(lay, k.disk) && ValidHeader(lay, k.disk, k.lh) && Installed(lay, k, base, n)
    ensures Recoverable(lay, k.disk) && SameData(lay, Recovered(lay, k.disk), base)
  {
    forall b: nat | b < |k.disk| && !InLog(lay, b)
      ensures Install(lay, k.disk, k.lh, |k.lh|)[b] == base[b]
    {
      hide HeadBlocks, HeadCount, Recoverable, SameData;
      InstallAt(lay, k.disk, k.lh, |k.lh|, b);
    }
  }

  /** Whatever the state, crashing now and recovering yields exactly the committed
      transactions applied in order to the first disk; each of them is a union of complete
      operations; while a commit runs no operation is outstanding; blocks recorded in the
      header are cached and pinned until they are installed; and no block is named twice. */
  ghost predicate Safe(lay: Layout, d: Disk, s: State) {
    && Recoverable(lay, s.k.disk) && |s.k.disk| == |d|
    && SameData(lay, Recovered(lay, s.k.disk), ApplyCommits(d, s.commits))
    && (forall t <- s.commits :: Complete(t, s.ended))
    && (s.k.committing ==> s.k.outstanding == 0)
    && NoDup(s.k.lh)
    && (s.pc.Running? || s.pc.Logging? ==> forall b <- s.k.lh :: b in s.k.cache && s.k.cache[b].dirty)
    && (s.pc.Installing? ==> forall t :: s.pc.k <= t < |s.k.lh| ==>
          s.k.lh[t] in s.k.cache && s.k.cache[s.k.lh[t]].dirty)
  }

  /** Group commit is safe over every run of every interleaving, with crashes anywhere, in
      which the header fits. */
  lemma GroupCommitSafety(lay: Layout, d: Disk, steps: seq<Step>)
    requires Clean(lay, d) && FittingRun(lay, Start(lay, d), steps)
    ensures Safe(lay, d, After(lay, Start(lay, d), steps))
  {
    StartInv(lay, d);
    RunKeeps(lay, d, Start(lay, d), steps);
    InvSafe(lay, d, After(lay, Start(lay, d), steps));
  }

  lemma InvSafe(lay: Layout, d: Disk, s: State)
    requires Inv(lay, d, s)
    ensures Safe(lay, d, s)
  {
    var base := ApplyCommits(d, s.commits);
    if s.pc.Installing? || s.pc.Recovering? {
      RecoverInstalled(lay, s.k, base, s.pc.k);
    } else {
      RecoverClean(lay, s.k.disk);
    }
  }

  /** Commits are never lost or reordered: later in the run the sequence only grew. */
  lemma {:induction false} CommitsGrow(lay: Layout, s: State, steps: seq<Step>)
    requires Run(lay, s, steps)
    ensures s.commits <= After(lay, s, steps).commits
    decreases |steps|
  {
    if steps != [] {
      CommitsGrow(lay, Next(lay, s, steps[0]), steps[1..]);
    }
  }

  /** Readers outside recovery see the committed state plus the transaction in progress. */
  lemma ReadsSeeWrites(lay: Layout, d: Disk, steps: seq<Step>, b: nat)
    requires Clean(lay, d) && FittingRun(lay, Start(lay, d), steps) && b < |d| && !InLog(lay, b)
    ensures var s := After(lay, Start(lay, d), steps);
            !s.pc.Recovering? ==> b < |s.k.disk| && View(s.k, b) == ApplyWrites(ApplyCommits(d, s.commits), s.txn)[b]
  {
    StartInv(lay, d);
    RunKeeps(lay, d, Start(lay, d), steps);
  }

  /** bread brings the block into the cache as it is, where it stays until brelse gives the
      reference back; a buffer is recycled only then, if clean, and nobody can tell. */
  lemma BreadBrelse(lay: Layout, s: State, b: nat)
    requires Coherent(s.k)
    ensures Enabled(lay, s, Bread(b)) ==>
              var r := Next(lay, s, Bread(b));
              && b in r.k.cache && View(r.k, b) == View(s.k, b) && !Enabled(lay, r, Evict(b))
              && Enabled(lay, r, Brelse(b)) && Next(lay, r, Brelse(b)) == r.(refs := s.refs)
    ensures Enabled(lay, s, Evict(b)) ==>
              var r := Next(lay, s, Evict(b));
              b !in s.refs && b !in r.k.cache && b < |s.k.disk| && View(r.k, b) == View(s.k, b) && r.k.disk == s.k.disk
  {
    if Enabled(lay, s, Bread(b)) {
      assert s.refs + multiset{b} - multiset{b} == s.refs;
    }
  }

  // ---------------------------------------------------------------- the committer is commit()

  /** The committer has made j of the block writes of commit(), which started on disk d
      with header hdr and cached contents img. */
  ghost predicate AtWrite(lay: Layout, s: State, d: Disk, hdr: seq<nat>, img: Disk, j: nat) {
    && Fits(lay, d) && ValidHeader(lay, d, hdr) && |img| == |d| && j <= 2 * |hdr| + 1
    && s.k.lh == hdr && s.pc == (if j <= |hdr| then Logging(j) else Installing(j - |hdr| - 1))
    && s.k.disk == CommitImage(lay, d, hdr, img, j)
    && (forall t :: 0 <= t < |hdr| ==> View(s.k, hdr[t]) == img[hdr[t]])
  }

  /** Cached blocks of the log area are clean. */
  lemma LogAreaReads(lay: Layout, k: Kernel, pc: Pc, base: Disk, img: Disk, b: nat)
    requires KernelInv(lay, k, pc, base, img) && InLog(lay, b)
    ensures View(k, b) == k.disk[b]
  {
  }

  lemma LogBlockImage(lay: Layout, s: State, d: Disk, hdr: seq<nat>, img: Disk, j: nat)
    requires AtWrite(lay, s, d, hdr, img, j) && Enabled(lay, s, LogBlock)
    ensures AtWrite(lay, Next(lay, s, LogBlock), d, hdr, img, j + 1)
  {
  }

  lemma CommitHeadImage(lay: Layout, s: State, d: Disk, hdr: seq<nat>, img: Disk, j: nat)
    requires AtWrite(lay, s, d, hdr, img, j) && Enabled(lay, s, CommitHead)
    requires View(s.k, lay.start) == s.k.disk[lay.start]
    ensures AtWrite(lay, Next(lay, s, CommitHead), d, hdr, img, j + 1)
  {
  }

  lemma InstallImageNext(lay: Layout, d: Disk, hdr: seq<nat>, img: Disk, j: nat)
    requires Fits(lay, d) && ValidHeader(lay, d, hdr) && |img| == |d| && |hdr| < j < 2 * |hdr| + 1
    ensures var n, now := j - |hdr| - 1, CommitImage(lay, d, hdr, img, j);
            |now| == |d| && CommitImage(lay, d, hdr, img, j + 1) == now[hdr[n] := now[lay.start + 1 + n]]
  {
  }

  lemma InstallBlockImage(lay: Layout, s: State, d: Disk, hdr: seq<nat>, img: Disk, j: nat)
    requires AtWrite(lay, s, d, hdr, img, j) && Enabled(lay, s, InstallBlock)
    requires View(s.k, lay.start + 1 + s.pc.k) == s.k.disk[lay.start + 1 + s.pc.k] == img[hdr[s.pc.k]]
    ensures AtWrite(lay, Next(lay, s, InstallBlock), d, hdr, img, j + 1)
  {
    hide CommitImage, CopyBuffers, BufferFree, LogWritePanics;
    var n := s.pc.k;
    InstallImageNext(lay, d, hdr, img, j);
    var r := s.(k := StoreBlock(s.k, hdr[n], img[hdr[n]]), pc := Installing(n + 1));
    assert Next(lay, s, InstallBlock) == r;
    hide Enabled, Next;
    assert AtWrite(lay, r, d, hdr, img, j + 1);
  }

  lemma CommitHeadWrite(lay: Layout, init: Disk, s: State, d: Disk, hdr: seq<nat>, img: Disk, j: nat)
    requires DiskInv(lay, init, s) && AtWrite(lay, s, d, hdr, img, j) && Enabled(lay, s, CommitHead)
    ensures AtWrite(lay, Next(lay, s, CommitHead), d, hdr, img, j + 1)
  {
    var base := ApplyCommits(init, s.commits);
    KernelSize(lay, s.k, s.pc, base, ApplyWrites(base, s.txn));
    hide KernelInv, AtWrite, Enabled, Next;
    LogAreaReads(lay, s.k, s.pc, base, ApplyWrites(base, s.txn), lay.start);
    CommitHeadImage(lay, s, d, hdr, img, j);
  }

  /** A log block about to be installed holds what readers see of its home block. */
  lemma LogBlockReads(lay: Layout, init: Disk, s: State)
    requires DiskInv(lay, init, s) && Enabled(lay, s, InstallBlock) && s.pc.Installing?
    ensures var b := lay.start + 1 + s.pc.k; View(s.k, b) == s.k.disk[b] == View(s.k, s.k.lh[s.pc.k])
  {
    var base := ApplyCommits(init, s.commits);
    LogAreaReads(lay, s.k, s.pc, base, ApplyWrites(base, s.txn), lay.start + 1 + s.pc.k);
  }

  lemma InstallBlockWrite(lay: Layout, init: Disk, s: State, d: Disk, hdr: seq<nat>, img: Disk, j: nat)
    requires DiskInv(lay, init, s) && AtWrite(lay, s, d, hdr, img, j) && Enabled(lay, s, InstallBlock)
    ensures AtWrite(lay, Next(lay, s, InstallBlock), d, hdr, img, j + 1)
  {
    hide DiskInv, CommitImage, View, Next;
    LogBlockReads(lay, init, s);
    InstallBlockImage(lay, s, d, hdr, img, j);
  }

  lemma ClearHeadWrite(lay: Layout, init: Disk, s: State, d: Disk, hdr: seq<nat>, img: Disk, j: nat)
    requires DiskInv(lay, init, s) && AtWrite(lay, s, d, hdr, img, j) && Enabled(lay, s, ClearHead)
    ensures Next(lay, s, ClearHead).k.disk == CommitImage(lay, d, hdr, img, j + 1)
  {
    hide KernelInv;
    var base := ApplyCommits(init, s.commits);
    KernelSize(lay, s.k, s.pc, base, ApplyWrites(base, s.txn));
    LogAreaReads(lay, s.k, s.pc, base, ApplyWrites(base, s.txn), lay.start);
  }

  /** Each committer step of the step system makes the next block write of commit(). */
  lemma CommitterStep(lay: Layout, init: Disk, s: State, step: Step, d: Disk, hdr: seq<nat>, img: Disk, j: nat)
    requires DiskInv(lay, init, s) && AtWrite(lay, s, d, hdr, img, j) && Enabled(lay, s, step)
    requires step.LogBlock? || step.CommitHead? || step.InstallBlock? || step.ClearHead?
    ensures Next(lay, s, step).k.disk == CommitImage(lay, d, hdr, img, j + 1)
    ensures !step.ClearHead? ==> AtWrite(lay, Next(lay, s, step), d, hdr, img, j + 1)
  {
    hide DiskInv, Enabled, Next, View, CommitImage;
    match step
    case LogBlock => LogBlockImage(lay, s, d, hdr, img, j);
    case CommitHead => CommitHeadWrite(lay, init, s, d, hdr, img, j);
    case InstallBlock => InstallBlockWrite(lay, init, s, d, hdr, img, j);
    case ClearHead => ClearHeadWrite(lay, init, s, d, hdr, img, j);
  }
}
