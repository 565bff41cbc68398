/** In-memory state of log.c: the cached blocks, the header being built and the counts
    of operations, together with the disk. */
module LogState {
  import opened Blocks
  import opened RedoLog

  /** A cached block; dirty (B_DIRTY) pins it, see bget in bio.c. */
  datatype CacheBuf = CacheBuf(data: Block, dirty: bool)

  datatype Kernel = Kernel(disk: Disk, cache: map<nat, CacheBuf>, lh: seq<nat>,
                           outstanding: nat, committing: bool)

  /** What bread(b) returns. */
  function View(k: Kernel, b: nat): (data: Block)
    requires b < |k.disk|
  {
    if b in k.cache then k.cache[b].data else k.disk[b]
  }

  function Image(k: Kernel): (img: Disk) {
    seq(|k.disk|, b requires 0 <= b < |k.disk| => View(k, b))
  }

  /** Clean cached blocks equal the disk. */
  ghost predicate Coherent(k: Kernel) {
    forall b <- k.cache :: b < |k.disk| && (!k.cache[b].dirty ==> k.cache[b].data == k.disk[b])
  }

  /** bread of an uncached block brings in a clean copy. */
  function Fetch(k: Kernel, b: nat): (r: Kernel)
    requires b < |k.disk|
  {
    if b in k.cache then k else k.(cache := k.cache[b := CacheBuf(k.disk[b], false)])
  }

  /** bwrite: the locked buffer and the disk block get the data, the buffer is clean. */
  function StoreBlock(k: Kernel, b: nat, data: Block): (r: Kernel)
    requires b < |k.disk|
  {
    k.(disk := k.disk[b := data], cache := k.cache[b := CacheBuf(data, false)])
  }

  /** begin_op's test: no commit running and room for one more reservation. */
  predicate MayBegin(k: Kernel) {
    !k.committing && |k.lh| + (k.outstanding + 1) * MAXOPBLOCKS <= LOGSIZE
  }

  /** log_write's guards, checked before absorption. */
  predicate LogWritePanics(lay: Layout, k: Kernel) {
    |k.lh| >= LOGSIZE || |k.lh| >= lay.size - 1 || k.outstanding < 1
  }

  /** The scan of log_write: old entries stay, and at most b is added, if it was missing. */
  function Absorb(lh: seq<nat>, b: nat): (r: seq<nat>)
    ensures lh <= r && b in r && (NoDup(lh) ==> NoDup(r))
    ensures |r| == |lh| + (if b in lh then 0 else 1) && forall c <- r :: c == b || c in lh
  {
    if b in lh then lh else lh + [b]
  }

  /** The caller's store into the buffer followed by log_write: record and pin. */
  function LogWrite(k: Kernel, b: nat, data: Block): (r: Kernel)
    requires b < |k.disk|
  {
    k.(cache := k.cache[b := CacheBuf(data, true)], lh := Absorb(k.lh, b))
  }

  // ---------------------------------------------------------------- effects of single calls

  predicate Dirty(k: Kernel, b: nat) {
    b in k.cache && k.cache[b].dirty
  }

  ghost predicate Ready(lay: Layout, k: Kernel) {
    Fits(lay, k.disk) && ValidHeader(lay, k.disk, k.lh)
  }

  /** Every block outside the log area reads the same. */
  ghost predicate SameHome(lay: Layout, k0: Kernel, k1: Kernel) {
    |k1.disk| == |k0.disk| && forall b: nat :: b < |k0.disk| && !InLog(lay, b) ==> View(k1, b) == View(k0, b)
  }

  /** Nothing in the log area is pinned. */
  ghost predicate PinsAtHome(lay: Layout, k: Kernel) {
    forall b: nat :: Dirty(k, b) ==> !InLog(lay, b)
  }

  /** r is k with possibly more clean copies cached. */
  ghost predicate Fetched(k: Kernel, r: Kernel) {
    && Coherent(r) && r == k.(cache := r.cache)
    && (forall c: nat :: c < |k.disk| ==> View(r, c) == View(k, c))
    && (forall c: nat :: Dirty(r, c) <==> Dirty(k, c))
  }

  /** r is k after block b, cached and on disk, became data. */
  ghost predicate Stored(k: Kernel, r: Kernel, b: nat, data: Block)
    requires b < |k.disk|
  {
    && Coherent(r) && r == k.(disk := k.disk[b := data], cache := r.cache)
    && (forall c: nat :: c < |k.disk| ==> View(r, c) == if c == b then data else View(k, c))
    && (forall c: nat :: Dirty(r, c) <==> c != b && Dirty(k, c))
  }

  lemma FetchEffect(k: Kernel, b: nat)
    requires Coherent(k) && b < |k.disk|
    ensures Fetched(k, Fetch(k, b))
  {
  }

  /** read_head: the header block is fetched and the in-memory header replaced. */
  lemma FetchEffectLh(k: Kernel, b: nat, lh: seq<nat>)
    requires Coherent(k) && b < |k.disk|
    ensures Fetched(k.(lh := lh), Fetch(k, b).(lh := lh))
  {
  }

  lemma StoreEffect(k: Kernel, b: nat, data: Block)
    requires Coherent(k) && b < |k.disk|
    ensures Stored(k, StoreBlock(k, b, data), b, data)
  {
  }

  lemma FetchThenStore(k: Kernel, p: Kernel, q: Kernel, r: Kernel, b: nat, data: Block)
    requires b < |k.disk| && Fetched(k, p) && Fetched(p, q) && Stored(q, r, b, data)
    ensures Stored(k, r, b, data)
  {
  }

  // ---------------------------------------------------------------- the loops of commit

  /** The state of write_log's loop: t blocks are in the log area. */
  ghost predicate LoggedUpTo(lay: Layout, k: Kernel, r: Kernel, t: nat)
    requires Ready(lay, k) && t <= |k.lh|
  {
    && Coherent(r) && r == k.(disk := WriteLog(lay, k.disk, k.lh, Image(k), t), cache := r.cache)
    && (forall b: nat :: b < |k.disk| && !InLog(lay, b) ==> View(r, b) == View(k, b))
    && (forall b: nat :: Dirty(r, b) <==> Dirty(k, b))
  }

  lemma LoggedNext(lay: Layout, k: Kernel, p: Kernel, r: Kernel, t: nat)
    requires Ready(lay, k) && PinsAtHome(lay, k) && 0 < t <= |k.lh| && LoggedUpTo(lay, k, p, t - 1)
    requires Stored(p, r, lay.start + t, View(p, k.lh[t - 1]))
    ensures LoggedUpTo(lay, k, r, t)
  {
  }

  /** The state of install_trans's loop: t home blocks are written. */
  ghost predicate HomeUpTo(lay: Layout, k: Kernel, r: Kernel, t: nat)
    requires Ready(lay, k) && t <= |k.lh|
  {
    && Coherent(r) && r == k.(disk := Install(lay, k.disk, k.lh, t), cache := r.cache)
    && (forall b: nat :: Dirty(r, b) <==> Dirty(k, b) && LastEntry(k.lh, t, b) < 0)
    && (forall b: nat :: b < |k.disk| ==> View(r, b) == if LastEntry(k.lh, t, b) < 0 then View(k, b) else r.disk[b])
  }

  lemma HomeNone(lay: Layout, k: Kernel)
    requires Ready(lay, k) && Coherent(k)
    ensures HomeUpTo(lay, k, k, 0)
  {
  }

  lemma HomeNext(lay: Layout, k: Kernel, p: Kernel, r: Kernel, t: nat)
    requires Ready(lay, k) && PinsAtHome(lay, k) && 0 < t <= |k.lh| && HomeUpTo(lay, k, p, t - 1)
    requires Stored(p, r, k.lh[t - 1], View(p, lay.start + t))
    ensures HomeUpTo(lay, k, r, t)
  {
    assert !Dirty(p, lay.start + t);
  }

  /** Write_head on a state with no pinned log block. */
  lemma StoreHeadEffect(lay: Layout, k: Kernel, r: Kernel)
    requires Ready(lay, k) && Coherent(k) && PinsAtHome(lay, k)
    requires Stored(k, r, lay.start, PutHead(View(k, lay.start), k.lh))
    ensures r.disk == SetHead(lay, k.disk, k.lh) && Ready(lay, r)
  {
    assert !Dirty(k, lay.start);
  }

  /** The first half of commit(): k0 -write_log-> k1 -write_head-> k2. */
  lemma CommitHalf(lay: Layout, k0: Kernel, k1: Kernel, k2: Kernel)
    requires Ready(lay, k0) && forall b: nat :: Dirty(k0, b) <==> b in k0.lh
    requires LoggedUpTo(lay, k0, k1, |k0.lh|)
    requires Stored(k1, k2, lay.start, PutHead(View(k1, lay.start), k0.lh))
    ensures k2 == k0.(disk := Committed(lay, k0.disk, k0.lh, Image(k0)), cache := k2.cache)
    ensures Ready(lay, k2) && PinsAtHome(lay, k2) && Coherent(k2)
    ensures forall b: nat :: Dirty(k2, b) <==> b in k0.lh
    ensures SameHome(lay, k0, k2)
  {
    StoreHeadEffect(lay, k1, k2);
  }

  /** All of commit(): k2 -install_trans-> k3, n := 0 (e), then the erased header k4.  Home blocks
      read as before and nothing stays pinned. */
  lemma CommitEffect(lay: Layout, k0: Kernel, k2: Kernel, k3: Kernel, e: Kernel, k4: Kernel)
    requires Ready(lay, k0) && forall b: nat :: Dirty(k2, b) <==> b in k0.lh
    requires k2 == k0.(disk := Committed(lay, k0.disk, k0.lh, Image(k0)), cache := k2.cache) && Ready(lay, k2)
    requires SameHome(lay, k0, k2)
    requires HomeUpTo(lay, k2, k3, |k0.lh|)
    requires e == k3.(lh := []) && Stored(e, k4, lay.start, PutHead(View(e, lay.start), e.lh))
    ensures Ready(lay, k4) && k4.lh == [] && Coherent(k4)
    ensures k4.disk == SetHead(lay, Install(lay, k2.disk, k2.lh, |k2.lh|), [])
    ensures k4.disk == CommitImage(lay, k0.disk, k0.lh, Image(k0), 2 * |k0.lh| + 2)
    ensures forall b: nat :: !Dirty(k4, b)
    ensures SameHome(lay, k0, k4)
  {
    assert forall b: nat :: Dirty(e, b) <==> Dirty(k3, b);
    assert forall b: nat :: b < |k3.disk| ==> View(e, b) == View(k3, b);
    StoreHeadEffect(lay, e, k4);
    forall b: nat | b < |k0.disk| && !InLog(lay, b) ensures View(k4, b) == View(k0, b) {
      InstallCommitted(lay, k0.disk, k0.lh, Image(k0), b);
    }
  }

  /** All of recover_from_log(), from the header just read. */
  lemma RecoverEffect(lay: Layout, k: Kernel, h: Kernel, e: Kernel, r: Kernel)
    requires Ready(lay, k) && (forall b: nat :: !Dirty(k, b))
    requires HeadCount(k.disk[lay.start]) <= LOGSIZE && k.lh == HeadBlocks(k.disk[lay.start])
    requires HomeUpTo(lay, k, h, |k.lh|)
    requires e == h.(lh := []) && Stored(e, r, lay.start, PutHead(View(e, lay.start), e.lh))
    ensures Ready(lay, r) && Coherent(r) && r.disk == Recovered(lay, k.disk) && forall b: nat :: !Dirty(r, b)
  {
    assert forall b: nat :: Dirty(e, b) <==> Dirty(h, b);
    StoreHeadEffect(lay, e, r);
  }

  lemma LogWriteEffect(k: Kernel, b: nat, data: Block)
    requires b < |k.disk| && Coherent(k)
    ensures var r := LogWrite(k, b, data);
            && Coherent(r)
            && (forall c: nat :: c < |k.disk| ==> View(r, c) == if c == b then data else View(k, c))
            && (forall c: nat :: Dirty(r, c) <==> c == b || Dirty(k, c))
  {
  }
}
