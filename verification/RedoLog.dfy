/** The on-disk physical redo log of log.c: header block at `start`, then the logged
    blocks.  Block writes are atomic (the disk of memide.c); a crash keeps the disk
    exactly as the last completed block write left it. */
module RedoLog {
  import opened Blocks

  const MAXOPBLOCKS: nat := 10
  const LOGSIZE: nat := 30

  type Disk = seq<Block>

  /** log.start and log.size, as initlog reads them from the superblock. */
  datatype Layout = Layout(start: nat, size: nat)

  predicate InLog(lay: Layout, b: nat) {
    lay.start <= b < lay.start + lay.size
  }

  predicate Fits(lay: Layout, d: Disk) {
    1 <= lay.size && lay.start + lay.size <= |d| <= TWO32
  }

  // ---------------------------------------------------------------- header block

  /** The count field of a header block; it is a signed C int. */
  function HeadCount(b: Block): (n: int) {
    var w := WordAt(b, 0);
    if w < 0x8000_0000 then w else w - TWO32
  }

  function HeadBlocks(b: Block): (hdr: seq<nat>)
    requires HeadCount(b) <= LOGSIZE
    ensures |hdr| == if HeadCount(b) < 0 then 0 else HeadCount(b)
  {
    seq(if HeadCount(b) < 0 then 0 else HeadCount(b), i requires 0 <= i < LOGSIZE => WordAt(b, i + 1))
  }

  predicate Words(hdr: seq<nat>) {
    |hdr| <= LOGSIZE && forall i :: 0 <= i < |hdr| ==> hdr[i] < TWO32
  }

  /** write_head's stores: the count, then the first i block numbers; entries past
      them keep whatever an earlier transaction left there. */
  function PutHeadUpTo(b: Block, hdr: seq<nat>, i: nat): (r: Block)
    requires Words(hdr) && i <= |hdr|
  {
    if i == 0 then PutWord(b, 0, |hdr|) else PutWord(PutHeadUpTo(b, hdr, i - 1), i, hdr[i - 1])
  }

  function PutHead(b: Block, hdr: seq<nat>): (r: Block)
    requires Words(hdr)
  {
    PutHeadUpTo(b, hdr, |hdr|)
  }

  lemma {:induction false} PutHeadWords(b: Block, hdr: seq<nat>, i: nat, j: nat)
    requires Words(hdr) && i <= |hdr| && j < WORDS
    ensures WordAt(PutHeadUpTo(b, hdr, i), j) ==
            if j == 0 then |hdr| else if j <= i then hdr[j - 1] else WordAt(b, j)
  {
    if i == 0 {
      WordAtPut(b, 0, |hdr|, j);
    } else {
      PutHeadWords(b, hdr, i - 1, j);
      WordAtPut(PutHeadUpTo(b, hdr, i - 1), i, hdr[i - 1], j);
    }
  }

  /** read_head undoes write_head, whatever the header block held before. */
  lemma HeadRoundTrip(b: Block, hdr: seq<nat>)
    requires Words(hdr)
    ensures HeadCount(PutHead(b, hdr)) == |hdr|
    ensures HeadBlocks(PutHead(b, hdr)) == hdr
  {
    PutHeadWords(b, hdr, |hdr|, 0);
    forall i | 0 <= i < |hdr| ensures WordAt(PutHead(b, hdr), i + 1) == hdr[i] {
      PutHeadWords(b, hdr, |hdr|, i + 1);
    }
  }

  // ---------------------------------------------------------------- disk images

  /** hdr can be installed on d: it fits the log area and names only home blocks. */
  predicate ValidHeader(lay: Layout, d: Disk, hdr: seq<nat>) {
    && |hdr| <= LOGSIZE
    && |hdr| < lay.size
    && forall i :: 0 <= i < |hdr| ==> hdr[i] < |d| && !InLog(lay, hdr[i])
  }

  /** What boot-time recovery needs of a disk. */
  predicate Recoverable(lay: Layout, d: Disk) {
    && Fits(lay, d)
    && HeadCount(d[lay.start]) <= LOGSIZE
    && ValidHeader(lay, d, HeadBlocks(d[lay.start]))
  }

  /** install_trans after its first k block writes. */
  function Install(lay: Layout, d: Disk, hdr: seq<nat>, k: nat): (r: Disk)
    requires Fits(lay, d) && ValidHeader(lay, d, hdr) && k <= |hdr|
    ensures |r| == |d|
  {
    if k == 0 then d
    else
      var r := Install(lay, d, hdr, k - 1);
      r[hdr[k - 1] := r[lay.start + k]]
  }

  /** write_log after its first k block writes; img is what the cache holds. */
  function WriteLog(lay: Layout, d: Disk, hdr: seq<nat>, img: Disk, k: nat): (r: Disk)
    requires Fits(lay, d) && ValidHeader(lay, d, hdr) && |img| == |d| && k <= |hdr|
    ensures |r| == |d|
  {
    if k == 0 then d
    else WriteLog(lay, d, hdr, img, k - 1)[lay.start + k := img[hdr[k - 1]]]
  }

  function SetHead(lay: Layout, d: Disk, hdr: seq<nat>): (r: Disk)
    requires Fits(lay, d) && Words(hdr)
    ensures |r| == |d|
  {
    d[lay.start := PutHead(d[lay.start], hdr)]
  }

  /** The disk after k block writes of recover_from_log. */
  function RecoverImage(lay: Layout, d: Disk, k: nat): (r: Disk)
    requires Recoverable(lay, d) && k <= |HeadBlocks(d[lay.start])| + 1
  {
    var hdr := HeadBlocks(d[lay.start]);
    if k <= |hdr| then Install(lay, d, hdr, k) else SetHead(lay, Install(lay, d, hdr, |hdr|), [])
  }

  function Recovered(lay: Layout, d: Disk): (r: Disk)
    requires Recoverable(lay, d)
  {
    RecoverImage(lay, d, |HeadBlocks(d[lay.start])| + 1)
  }

  /** The disk after k block writes of commit(): n log blocks, the header, n home
      blocks, the erased header. */
  function CommitImage(lay: Layout, d: Disk, hdr: seq<nat>, img: Disk, k: nat): (r: Disk)
    requires Fits(lay, d) && ValidHeader(lay, d, hdr) && |img| == |d| && k <= 2 * |hdr| + 2
  {
    var n := |hdr|;
    if k <= n then WriteLog(lay, d, hdr, img, k)
    else if k <= 2 * n + 1 then Install(lay, Committed(lay, d, hdr, img), hdr, k - n - 1)
    else SetHead(lay, Install(lay, Committed(lay, d, hdr, img), hdr, n), [])
  }

  /** The disks left by the successive block writes of each loop, and of commit(). */
  function InstallTrace(lay: Layout, d: Disk, hdr: seq<nat>, k: nat): (r: seq<Disk>)
    requires Fits(lay, d) && ValidHeader(lay, d, hdr) && k <= |hdr|
    ensures |r| == k && forall i :: 0 <= i < k ==> r[i] == Install(lay, d, hdr, i + 1)
  {
    if k == 0 then [] else InstallTrace(lay, d, hdr, k - 1) + [Install(lay, d, hdr, k)]
  }

  function WriteLogTrace(lay: Layout, d: Disk, hdr: seq<nat>, img: Disk, k: nat): (r: seq<Disk>)
    requires Fits(lay, d) && ValidHeader(lay, d, hdr) && |img| == |d| && k <= |hdr|
    ensures |r| == k && forall i :: 0 <= i < k ==> r[i] == WriteLog(lay, d, hdr, img, i + 1)
  {
    if k == 0 then [] else WriteLogTrace(lay, d, hdr, img, k - 1) + [WriteLog(lay, d, hdr, img, k)]
  }

  lemma CommitTraceAfter(w: seq<Disk>, lay: Layout, d: Disk, hdr: seq<nat>, img: Disk)
    requires Fits(lay, d) && ValidHeader(lay, d, hdr) && |img| == |d|
    ensures var c := Committed(lay, d, hdr, img);
            w + WriteLogTrace(lay, d, hdr, img, |hdr|) + [c] + InstallTrace(lay, c, hdr, |hdr|)
            + [SetHead(lay, Install(lay, c, hdr, |hdr|), [])] == w + CommitTrace(lay, d, hdr, img)
  {
  }

  function CommitTrace(lay: Layout, d: Disk, hdr: seq<nat>, img: Disk): (r: seq<Disk>)
    requires Fits(lay, d) && ValidHeader(lay, d, hdr) && |img| == |d|
    ensures |r| == 2 * |hdr| + 2
    ensures forall k :: 1 <= k <= 2 * |hdr| + 2 ==> r[k - 1] == CommitImage(lay, d, hdr, img, k)
  {
    var c := Committed(lay, d, hdr, img);
    WriteLogTrace(lay, d, hdr, img, |hdr|) + [c] + InstallTrace(lay, c, hdr, |hdr|)
    + [SetHead(lay, Install(lay, c, hdr, |hdr|), [])]
  }

  function RecoverTrace(lay: Layout, d: Disk): (r: seq<Disk>)
    requires Recoverable(lay, d)
    ensures |r| == |HeadBlocks(d[lay.start])| + 1
    ensures forall k :: 1 <= k <= |r| ==> r[k - 1] == RecoverImage(lay, d, k)
  {
    var hdr := HeadBlocks(d[lay.start]);
    InstallTrace(lay, d, hdr, |hdr|) + [SetHead(lay, Install(lay, d, hdr, |hdr|), [])]
  }

  /** d with every block of the transaction replaced by its cached contents. */
  function Post(d: Disk, hdr: seq<nat>, img: Disk): (r: Disk)
    requires |img| == |d|
  {
    seq(|d|, b requires 0 <= b < |d| => if b in hdr then img[b] else d[b])
  }

  ghost predicate SameData(lay: Layout, d: Disk, e: Disk) {
    |d| == |e| && forall b :: 0 <= b < |d| && !InLog(lay, b) ==> d[b] == e[b]
  }

  // ---------------------------------------------------------------- pointwise forms

  /** Index of the last of the first k header entries that names block b, or -1. */
  function LastEntry(hdr: seq<nat>, k: nat, b: nat): (t: int)
    requires k <= |hdr|
    ensures -1 <= t < k
    ensures t >= 0 ==> hdr[t] == b
    ensures t < 0 ==> forall i :: 0 <= i < k ==> hdr[i] != b
  {
    if k == 0 then -1 else if hdr[k - 1] == b then k - 1 else LastEntry(hdr, k - 1, b)
  }

  lemma {:induction false} LastEntryMono(hdr: seq<nat>, k: nat, m: nat, b: nat)
    requires k <= m <= |hdr|
    ensures LastEntry(hdr, k, b) <= LastEntry(hdr, m, b)
    decreases m
  {
    if k < m { LastEntryMono(hdr, k, m - 1, b); }
  }

  lemma {:induction false} InstallAt(lay: Layout, d: Disk, hdr: seq<nat>, k: nat, b: nat)
    requires Fits(lay, d) && ValidHeader(lay, d, hdr) && k <= |hdr| && b < |d|
    ensures Install(lay, d, hdr, k)[b] ==
            var t := LastEntry(hdr, k, b); if t < 0 then d[b] else d[lay.start + 1 + t]
  {
    if k > 0 {
      InstallAt(lay, d, hdr, k - 1, b);
      InstallAt(lay, d, hdr, k - 1, lay.start + k);
    }
  }

  lemma {:induction false} WriteLogAt(lay: Layout, d: Disk, hdr: seq<nat>, img: Disk, k: nat, b: nat)
    requires Fits(lay, d) && ValidHeader(lay, d, hdr) && |img| == |d| && k <= |hdr| && b < |d|
    ensures WriteLog(lay, d, hdr, img, k)[b] ==
            if lay.start < b <= lay.start + k then img[hdr[b - lay.start - 1]] else d[b]
  {
    if k > 0 { WriteLogAt(lay, d, hdr, img, k - 1, b); }
  }

  // ---------------------------------------------------------------- recovery

  /** Re-running install_trans over a partly installed log ends in the same disk. */
  lemma InstallAgain(lay: Layout, d: Disk, hdr: seq<nat>, k: nat)
    requires Fits(lay, d) && ValidHeader(lay, d, hdr) && k <= |hdr|
    ensures Install(lay, Install(lay, d, hdr, k), hdr, |hdr|) == Install(lay, d, hdr, |hdr|)
  {
    var p := Install(lay, d, hdr, k);
    var n := |hdr|;
    forall b | 0 <= b < |d|
      ensures Install(lay, p, hdr, n)[b] == Install(lay, d, hdr, n)[b]
    {
      InstallAt(lay, p, hdr, n, b);
      InstallAt(lay, d, hdr, n, b);
      InstallAt(lay, d, hdr, k, b);
      LastEntryMono(hdr, k, n, b);
      var t := LastEntry(hdr, n, b);
      if t >= 0 { InstallAt(lay, d, hdr, k, lay.start + 1 + t); }
    }
  }

  lemma InstallKeepsHead(lay: Layout, d: Disk, hdr: seq<nat>, k: nat)
    requires Fits(lay, d) && ValidHeader(lay, d, hdr) && k <= |hdr|
    ensures Install(lay, d, hdr, k)[lay.start] == d[lay.start]
  {
  }

  lemma ClearTwice(b: Block)
    ensures PutHead(PutHead(b, []), []) == PutHead(b, [])
  {
  }

  /** A crash inside recover_from_log changes nothing about where recovery ends. */
  lemma CrashInRecovery(lay: Layout, d: Disk, k: nat)
    requires Recoverable(lay, d) && k <= |HeadBlocks(d[lay.start])| + 1
    ensures Recoverable(lay, RecoverImage(lay, d, k))
    ensures Recovered(lay, RecoverImage(lay, d, k)) == Recovered(lay, d)
  {
    var hdr := HeadBlocks(d[lay.start]);
    InstallKeepsHead(lay, d, hdr, if k <= |hdr| then k else |hdr|);
    if k <= |hdr| {
      InstallAgain(lay, d, hdr, k);
    } else {
      HeadRoundTrip(d[lay.start], []);
      ClearTwice(d[lay.start]);
    }
  }

  /** Repeated boots: the i-th recovery attempt completes ks[i] block writes and then
      the machine crashes again. */
  ghost predicate Boots(lay: Layout, d: Disk, ks: seq<nat>)
    decreases |ks|
  {
    && Recoverable(lay, d)
    && (ks != [] ==> ks[0] <= |HeadBlocks(d[lay.start])| + 1 && Boots(lay, RecoverImage(lay, d, ks[0]), ks[1..]))
  }

  ghost function AfterBoots(lay: Layout, d: Disk, ks: seq<nat>): (r: Disk)
    requires Boots(lay, d, ks)
    decreases |ks|
  {
    if ks == [] then d else AfterBoots(lay, RecoverImage(lay, d, ks[0]), ks[1..])
  }

  lemma {:induction false} RecoveryIsIdempotent(lay: Layout, d: Disk, ks: seq<nat>)
    requires Boots(lay, d, ks)
    ensures Recoverable(lay, AfterBoots(lay, d, ks))
    ensures Recovered(lay, AfterBoots(lay, d, ks)) == Recovered(lay, d)
    decreases |ks|
  {
    if ks != [] {
      CrashInRecovery(lay, d, ks[0]);
      RecoveryIsIdempotent(lay, RecoverImage(lay, d, ks[0]), ks[1..]);
    }
  }

  // ---------------------------------------------------------------- commit

  predicate Clean(lay: Layout, d: Disk) {
    Fits(lay, d) && HeadCount(d[lay.start]) <= 0
  }

  lemma RecoverClean(lay: Layout, d: Disk)
    requires Clean(lay, d)
    ensures Recoverable(lay, d) && SameData(lay, Recovered(lay, d), d)
  {
  }

  /** The disk once write_log and the first write_head have completed. */
  function Committed(lay: Layout, d: Disk, hdr: seq<nat>, img: Disk): (r: Disk)
    requires Fits(lay, d) && ValidHeader(lay, d, hdr) && |img| == |d|
    ensures |r| == |d|
  {
    SetHead(lay, WriteLog(lay, d, hdr, img, |hdr|), hdr)
  }

  lemma InstallCommitted(lay: Layout, d: Disk, hdr: seq<nat>, img: Disk, b: nat)
    requires Fits(lay, d) && ValidHeader(lay, d, hdr) && |img| == |d|
    requires b < |d| && !InLog(lay, b)
    ensures Install(lay, Committed(lay, d, hdr, img), hdr, |hdr|)[b] == Post(d, hdr, img)[b]
  {
    InstallAt(lay, Committed(lay, d, hdr, img), hdr, |hdr|, b);
    var t := LastEntry(hdr, |hdr|, b);
    WriteLogAt(lay, d, hdr, img, |hdr|, if t < 0 then b else lay.start + 1 + t);
  }

  /** With the header on disk and k home blocks installed, the log names the whole
      transaction and installing it yields the whole transaction. */
  lemma RecoverCommitted(lay: Layout, d: Disk, hdr: seq<nat>, img: Disk, k: nat)
    requires Fits(lay, d) && ValidHeader(lay, d, hdr) && |img| == |d| && k <= |hdr|
    ensures var c := Install(lay, Committed(lay, d, hdr, img), hdr, k);
            Recoverable(lay, c) && HeadBlocks(c[lay.start]) == hdr
            && SameData(lay, Install(lay, c, hdr, |hdr|), Post(d, hdr, img))
  {
    var headed := Committed(lay, d, hdr, img);
    HeadRoundTrip(WriteLog(lay, d, hdr, img, |hdr|)[lay.start], hdr);
    InstallKeepsHead(lay, headed, hdr, k);
    InstallAgain(lay, headed, hdr, k);
    forall b | 0 <= b < |d| && !InLog(lay, b)
      ensures Install(lay, headed, hdr, |hdr|)[b] == Post(d, hdr, img)[b]
    {
      InstallCommitted(lay, d, hdr, img, b);
    }
  }

  /** The final state of commit(): the whole transaction is home and the log is clean. */
  lemma CommitCompletes(lay: Layout, d: Disk, hdr: seq<nat>, img: Disk)
    requires Fits(lay, d) && ValidHeader(lay, d, hdr) && |img| == |d|
    ensures Clean(lay, CommitImage(lay, d, hdr, img, 2 * |hdr| + 2))
    ensures SameData(lay, CommitImage(lay, d, hdr, img, 2 * |hdr| + 2), Post(d, hdr, img))
  {
    RecoverCommitted(lay, d, hdr, img, |hdr|);
    var c := Install(lay, Committed(lay, d, hdr, img), hdr, |hdr|);
    InstallAgain(lay, Committed(lay, d, hdr, img), hdr, |hdr|);
    HeadRoundTrip(c[lay.start], []);
  }

  lemma WriteLogKeepsData(lay: Layout, d: Disk, hdr: seq<nat>, img: Disk, k: nat)
    requires Fits(lay, d) && ValidHeader(lay, d, hdr) && |img| == |d| && k <= |hdr|
    ensures SameData(lay, WriteLog(lay, d, hdr, img, k), d)
    ensures WriteLog(lay, d, hdr, img, k)[lay.start] == d[lay.start]
  {
  }

  lemma CrashLogging(lay: Layout, d: Disk, hdr: seq<nat>, img: Disk, k: nat)
    requires Clean(lay, d) && ValidHeader(lay, d, hdr) && |img| == |d| && k <= |hdr|
    ensures var c := WriteLog(lay, d, hdr, img, k); Recoverable(lay, c) && SameData(lay, Recovered(lay, c), d)
  {
    hide Recoverable, Recovered, WriteLog;
    WriteLogKeepsData(lay, d, hdr, img, k);
    RecoverClean(lay, WriteLog(lay, d, hdr, img, k));
  }

  lemma CrashInstalling(lay: Layout, d: Disk, hdr: seq<nat>, img: Disk, k: nat)
    requires Fits(lay, d) && ValidHeader(lay, d, hdr) && |img| == |d| && k <= |hdr|
    ensures var c := Install(lay, Committed(lay, d, hdr, img), hdr, k);
            Recoverable(lay, c) && SameData(lay, Recovered(lay, c), Post(d, hdr, img))
  {
    hide Committed, Install;
    RecoverCommitted(lay, d, hdr, img, k);
  }

  lemma CrashDone(lay: Layout, d: Disk, hdr: seq<nat>, img: Disk)
    requires Fits(lay, d) && ValidHeader(lay, d, hdr) && |img| == |d|
    ensures var c := CommitImage(lay, d, hdr, img, 2 * |hdr| + 2);
            Recoverable(lay, c) && SameData(lay, Recovered(lay, c), Post(d, hdr, img))
  {
    hide Recoverable, Recovered, CommitImage;
    CommitCompletes(lay, d, hdr, img);
    RecoverClean(lay, CommitImage(lay, d, hdr, img, 2 * |hdr| + 2));
  }

  lemma CommitCrash(lay: Layout, d: Disk, hdr: seq<nat>, img: Disk, k: nat)
    requires Clean(lay, d) && ValidHeader(lay, d, hdr) && |img| == |d| && k <= 2 * |hdr| + 2
    ensures Recoverable(lay, CommitImage(lay, d, hdr, img, k))
    ensures SameData(lay, Recovered(lay, CommitImage(lay, d, hdr, img, k)),
                     if k <= |hdr| then d else Post(d, hdr, img))
  {
    hide Recoverable, Recovered, SameData, WriteLog, Install, Committed, Post;
    var n := |hdr|;
    if k <= n {
      CrashLogging(lay, d, hdr, img, k);
    } else if k <= 2 * n + 1 {
      CrashInstalling(lay, d, hdr, img, k - n - 1);
    } else {
      CrashDone(lay, d, hdr, img);
    }
  }

  /** Crash atomicity: crash commit() after any k of its block writes, then crash any
      number of recovery attempts anywhere; the recovery that completes leaves every
      home block as before the transaction, or every home block as after it -- the
      latter exactly when the header write (write number n + 1) reached the disk. */
  lemma CrashAtomicity(lay: Layout, d: Disk, hdr: seq<nat>, img: Disk, k: nat, ks: seq<nat>)
    requires Clean(lay, d) && ValidHeader(lay, d, hdr) && |img| == |d| && k <= 2 * |hdr| + 2
    requires Boots(lay, CommitImage(lay, d, hdr, img, k), ks)
    ensures var e := AfterBoots(lay, CommitImage(lay, d, hdr, img, k), ks);
            Recoverable(lay, e) && Clean(lay, Recovered(lay, e))
            && SameData(lay, Recovered(lay, e), if k <= |hdr| then d else Post(d, hdr, img))
  {
    var c := CommitImage(lay, d, hdr, img, k);
    CommitCrash(lay, d, hdr, img, k);
    RecoveryIsIdempotent(lay, c, ks);
    RecoveredIsClean(lay, c);
  }

  lemma RecoveredIsClean(lay: Layout, d: Disk)
    requires Recoverable(lay, d)
    ensures Clean(lay, Recovered(lay, d))
  {
  }
}
