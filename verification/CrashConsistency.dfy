/** What a crash can leave of the file system: the log brings back the image that readers saw
    at a moment when no operation was under way, so whatever holds between operations holds
    after every recovery. */
module CrashConsistency {
  import opened Blocks
  import opened RedoLog
  import opened LogState
  import opened GroupCommit
  import opened FsLayout
  import opened FsOwnership

  // ---------------------------------------------------------------- prefixes of runs

  lemma {:induction false} PrefixFits(lay: Layout, s: State, steps: seq<Step>, n: nat)
    requires FittingRun(lay, s, steps) && n <= |steps|
    ensures FittingRun(lay, s, steps[..n])
    decreases n
  {
    if n > 0 {
      PrefixFits(lay, Next(lay, s, steps[0]), steps[1..], n - 1);
      assert steps[..n][1..] == steps[1..][..n - 1];
    }
  }

  lemma {:induction false} PrefixNext(lay: Layout, s: State, steps: seq<Step>, n: nat)
    requires FittingRun(lay, s, steps) && n < |steps|
    requires FittingRun(lay, s, steps[..n]) && FittingRun(lay, s, steps[..n + 1])
    ensures Enabled(lay, After(lay, s, steps[..n]), steps[n])
    ensures After(lay, s, steps[..n + 1]) == Next(lay, After(lay, s, steps[..n]), steps[n])
    decreases n
  {
    if n > 0 {
      assert steps[..n][1..] == steps[1..][..n - 1] && steps[..n + 1][1..] == steps[1..][..n];
      PrefixNext(lay, Next(lay, s, steps[0]), steps[1..], n - 1);
    }
  }

  /** The state after the first n steps. */
  ghost function At(lay: Layout, d: Disk, steps: seq<Step>, n: nat): (s: State)
    requires Clean(lay, d) && FittingRun(lay, Start(lay, d), steps) && n <= |steps|
  {
    PrefixFits(lay, Start(lay, d), steps, n);
    After(lay, Start(lay, d), steps[..n])
  }

  lemma AtStart(lay: Layout, d: Disk, steps: seq<Step>)
    requires Clean(lay, d) && FittingRun(lay, Start(lay, d), steps)
    ensures At(lay, d, steps, 0) == Start(lay, d)
  {
    assert steps[..0] == [];
  }

  lemma AtStep(lay: Layout, d: Disk, steps: seq<Step>, n: nat)
    requires Clean(lay, d) && FittingRun(lay, Start(lay, d), steps) && n < |steps|
    ensures Enabled(lay, At(lay, d, steps, n), steps[n])
    ensures At(lay, d, steps, n + 1) == Next(lay, At(lay, d, steps, n), steps[n])
  {
    hide Next, Enabled;
    PrefixFits(lay, Start(lay, d), steps, n);
    PrefixFits(lay, Start(lay, d), steps, n + 1);
    PrefixNext(lay, Start(lay, d), steps, n);
  }

  lemma AtInv(lay: Layout, d: Disk, steps: seq<Step>, n: nat)
    requires Clean(lay, d) && FittingRun(lay, Start(lay, d), steps) && n <= |steps|
    ensures Inv(lay, d, At(lay, d, steps, n))
  {
    hide Next, Enabled, Inv;
    StartInv(lay, d);
    PrefixFits(lay, Start(lay, d), steps, n);
    RunKeeps(lay, d, Start(lay, d), steps[..n]);
  }

  // ---------------------------------------------------------------- commits are quiet moments

  /** Between operations: none is outstanding, and readers are let in. */
  predicate Quiet(s: State) {
    s.active == [] && !s.pc.Recovering?
  }

  /** When the header is written, nothing is outstanding and readers see what is committed. */
  lemma CommitMoment(lay: Layout, d: Disk, s: State)
    requires Inv(lay, d, s) && Enabled(lay, s, CommitHead)
    ensures Quiet(s) && ViewIs(lay, s.k, ApplyCommits(d, Next(lay, s, CommitHead).commits))
  {
    hide ViewIs, Pinned, LogHolds, SameData, Coherent, TxnInv;
    ApplyCommit(d, s.commits, s.txn);
  }

  lemma CommitsSame(lay: Layout, s: State, step: Step)
    requires Enabled(lay, s, step) && step != CommitHead
    ensures Next(lay, s, step).commits == s.commits
  {
    hide View, PutHead, Fetch, LogWrite, StoreBlock, HasBuffers, CopyBuffers, BufferFree, LogWritePanics;
  }

  /** The committed state is the first disk, or what readers saw at an earlier moment when no
      operation was outstanding. */
  lemma {:induction false} CommittedWasQuiet(lay: Layout, d: Disk, steps: seq<Step>, m: nat) returns (n: nat)
    requires Clean(lay, d) && FittingRun(lay, Start(lay, d), steps) && m <= |steps|
    ensures n <= m
    ensures var s, q := At(lay, d, steps, m), At(lay, d, steps, n);
            s.commits == [] || (Quiet(q) && ViewIs(lay, q.k, ApplyCommits(d, s.commits)))
    decreases m
  {
    hide Next, Enabled, Inv, ViewIs, Quiet, ApplyCommits, At, FittingRun, Run, After;
    n := 0;
    if m == 0 {
      AtStart(lay, d, steps);
    } else {
      var p := At(lay, d, steps, m - 1);
      AtStep(lay, d, steps, m - 1);
      if steps[m - 1] == CommitHead {
        n := m - 1;
        AtInv(lay, d, steps, m - 1);
        CommitMoment(lay, d, p);
      } else {
        n := CommittedWasQuiet(lay, d, steps, m - 1);
        CommitsSame(lay, p, steps[m - 1]);
      }
    }
  }

  /** Recovery after a crash at the end of a run restores such a moment. */
  lemma RecoveredWasQuiet(lay: Layout, d: Disk, steps: seq<Step>) returns (n: nat)
    requires Clean(lay, d) && FittingRun(lay, Start(lay, d), steps)
    ensures n <= |steps|
    ensures var s, q := After(lay, Start(lay, d), steps), At(lay, d, steps, n);
            && Recoverable(lay, s.k.disk)
            && (SameData(lay, Recovered(lay, s.k.disk), d)
                || (Quiet(q) && |q.k.disk| == |d| && SameData(lay, Recovered(lay, s.k.disk), Image(q.k))))
  {
    n := CommittedWasQuiet(lay, d, steps, |steps|);
    assert steps[..|steps|] == steps;
    GroupCommitSafety(lay, d, steps);
  }

  // ---------------------------------------------------------------- the file system

  function InodesOf(g: Geometry, img: Disk): (eff: seq<Dinode>)
    requires GeometryOk(g, |img|)
    ensures InodesOk(g, eff) && forall i :: 0 <= i < g.ninodes ==> eff[i] == DecodeInode(img[IBlock(g, i)], i % IPB)
  {
    seq(g.ninodes, i requires 0 <= i < g.ninodes => DecodeInode(img[IBlock(g, i)], i % IPB))
  }

  /** A disk image whose blocks in use each have one owner, and whose free map says so. */
  ghost predicate Consistent(g: Geometry, img: Disk) {
    GeometryOk(g, |img|) && exists owner :: Own(g, img, InodesOf(g, img), owner, {})
  }

  /** The log lies before the inodes, as mkfs puts it. */
  predicate LogBeforeInodes(lay: Layout, g: Geometry) {
    lay.start + lay.size <= g.inodestart
  }

  lemma InodesOutsideLog(lay: Layout, g: Geometry, a: Disk, b: Disk)
    requires SameData(lay, a, b) && LogBeforeInodes(lay, g) && GeometryOk(g, |a|)
    ensures GeometryOk(g, |b|) && InodesOf(g, b) == InodesOf(g, a)
  {
    forall i | 0 <= i < g.ninodes ensures InodesOf(g, b)[i] == InodesOf(g, a)[i] {
      assert !InLog(lay, IBlock(g, i)) && IBlock(g, i) < |a|;
    }
  }

  /** Consistency and the bytes of every file do not depend on the log area. */
  lemma OutsideLog(lay: Layout, g: Geometry, a: Disk, b: Disk)
    requires SameData(lay, a, b) && LogBeforeInodes(lay, g) && Consistent(g, a)
    ensures Consistent(g, b) && InodesOf(g, b) == InodesOf(g, a) && SameFiles(g, a, InodesOf(g, a), b, InodesOf(g, b))
  {
    hide Own, SameFiles, InodesOf;
    InodesOutsideLog(lay, g, a, b);
    var owner :| Own(g, a, InodesOf(g, a), owner, {});
    OwnOutsideLog(lay, g, a, b, InodesOf(g, a), owner);
  }

  lemma OwnOutsideLog(lay: Layout, g: Geometry, a: Disk, b: Disk, eff: seq<Dinode>, owner: map<nat, (nat, nat)>)
    requires SameData(lay, a, b) && LogBeforeInodes(lay, g) && Own(g, a, eff, owner, {})
    ensures Own(g, b, eff, owner, {}) && SameFiles(g, a, eff, b, eff)
  {
    forall i: nat, s: nat | i < |eff| && s < SLOTS ensures RefBlock(b, eff[i], s) == RefBlock(a, eff[i], s) {
      assert RefBlock(a, eff[i], NDIRECT) == eff[i].addrs[NDIRECT];
    }
    forall c: nat | c < g.size ensures Bit(g, b, c) == Bit(g, a, c) {
      assert !InLog(lay, BBlock(g, c));
    }
    forall i: nat, x: nat | i < |eff| && x < MAXFILE * BSIZE ensures FileByte(b, eff[i], x) == FileByte(a, eff[i], x) {
      assert RefBlock(a, eff[i], SlotOf(x / BSIZE)) == FileBlock(a, eff[i], x / BSIZE);
      assert RefBlock(b, eff[i], SlotOf(x / BSIZE)) == FileBlock(b, eff[i], x / BSIZE);
    }
  }

  /** The file system is consistent whenever no operation is outstanding. */
  ghost predicate ConsistentWhenQuiet(lay: Layout, g: Geometry, d: Disk, steps: seq<Step>)
    requires Clean(lay, d) && FittingRun(lay, Start(lay, d), steps)
  {
    Consistent(g, d) && forall n: nat :: n <= |steps| && Quiet(At(lay, d, steps, n)) ==> Consistent(g, Image(At(lay, d, steps, n).k))
  }

  /** The disk is the first one, or what readers saw when no operation was outstanding. */
  ghost predicate WasQuiet(lay: Layout, d: Disk, steps: seq<Step>, img: Disk)
    requires Clean(lay, d) && FittingRun(lay, Start(lay, d), steps)
  {
    img == d || exists n: nat :: n <= |steps| && Quiet(At(lay, d, steps, n)) && img == Image(At(lay, d, steps, n).k)
  }

  /** Two consistent disks hold the same files. */
  ghost predicate SameFileSystem(g: Geometry, a: Disk, b: Disk) {
    Consistent(g, a) && Consistent(g, b) && SameFiles(g, a, InodesOf(g, a), b, InodesOf(g, b))
  }

  /** If the file system is consistent whenever no operation is outstanding, then it is
      consistent after recovery from a crash at any point of any run, and every file then
      reads as it did on the first disk or at some such moment. */
  lemma CrashKeepsFiles(lay: Layout, g: Geometry, d: Disk, steps: seq<Step>) returns (img: Disk)
    requires Clean(lay, d) && FittingRun(lay, Start(lay, d), steps) && LogBeforeInodes(lay, g)
    requires ConsistentWhenQuiet(lay, g, d, steps)
    ensures WasQuiet(lay, d, steps, img)
    ensures var crashed := After(lay, Start(lay, d), steps).k.disk;
            Recoverable(lay, crashed) && SameFileSystem(g, img, Recovered(lay, crashed))
  {
    hide Next, Enabled, Consistent, SameFiles, Recovered, Recoverable;
    var n := RecoveredWasQuiet(lay, d, steps);
    var s, q := After(lay, Start(lay, d), steps), At(lay, d, steps, n);
    img := if SameData(lay, Recovered(lay, s.k.disk), d) then d else Image(q.k);
    OutsideLog(lay, g, img, Recovered(lay, s.k.disk));
  }
}
