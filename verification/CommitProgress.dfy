/** When commit() gets through.  Every block of the header is pinned in a buffer of its own
    until it is installed, and writing the log takes one buffer more; so a commit that nobody
    disturbs finishes exactly when the header has fewer blocks than there are buffers. */
module CommitProgress {
  import opened Blocks
  import opened RedoLog
  import opened LogState
  import opened GroupCommit

  predicate NoCrash(steps: seq<Step>) { forall i :: 0 <= i < |steps| ==> !steps[i].Crash? }

  // ---------------------------------------------------------------- no buffer left

  /** About to write the first log block, with every buffer pinned. */
  ghost predicate Jammed(lay: Layout, s: State) {
    && s.pc == Logging(0) && s.active == [] && s.k.lh != [] && |s.k.cache.Keys| == NBUF
    && lay.start + 1 !in s.k.cache && s.k.lh[0] in s.k.cache
    && forall b <- s.k.cache :: s.k.cache[b].dirty
  }

  lemma FullHeaderJams(lay: Layout, init: Disk, s: State)
    requires Inv(lay, init, s) && s.pc == Logging(0) && NBUF <= |s.k.lh|
    ensures Jammed(lay, s)
  {
    hide TxnInv, ViewIs, Coherent, SameData, Clean, LogHolds, Complete;
    var keys := s.k.cache.Keys;
    NoDupCard(s.k.lh, keys);
    forall b <- keys ensures b in s.k.lh {
      if b !in s.k.lh {
        NoDupCard(s.k.lh + [b], keys);
      }
    }
    assert InLog(lay, lay.start + 1);
  }

  /** There is no way on but a crash. */
  lemma JammedStep(lay: Layout, s: State, step: Step)
    requires Jammed(lay, s) && Enabled(lay, s, step) && !step.Crash?
    ensures Jammed(lay, Next(lay, s, step))
    ensures Next(lay, s, step) == s.(refs := Next(lay, s, step).refs)
  {
    var keys := s.k.cache.Keys;
    assert keys + {lay.start + 1, s.k.lh[0]} == keys + {lay.start + 1};
    assert forall b: nat :: b !in keys ==> |keys + {b}| == NBUF + 1;
  }

  /** A header of NBUF blocks: commit() panics in bget for want of a buffer before it has
      written anything, whatever everyone else does. */
  lemma {:induction false} JammedRun(lay: Layout, s: State, steps: seq<Step>)
    requires Jammed(lay, s) && Run(lay, s, steps) && NoCrash(steps)
    ensures var r := After(lay, s, steps); r == s.(refs := r.refs) && BgetPanics(r, lay.start + 1)
    decreases |steps|
  {
    if steps != [] {
      hide Jammed, Enabled, Next;
      JammedStep(lay, s, steps[0]);
      JammedRun(lay, Next(lay, s, steps[0]), steps[1..]);
    }
  }

  // ---------------------------------------------------------------- enough buffers

  /** In the middle of a commit, with nobody else holding a buffer. */
  ghost predicate Committing(lay: Layout, init: Disk, s: State) {
    Inv(lay, init, s) && (s.pc.Logging? || s.pc.Installing?) && s.refs == multiset{} && |s.k.lh| < NBUF
  }

  /** Number of block writes until commit() is done. */
  function Left(s: State): int {
    match s.pc
    case Logging(k) => 2 * |s.k.lh| + 2 - k
    case Installing(k) => |s.k.lh| + 1 - k
    case _ => 0
  }

  ghost predicate AllDirty(k: Kernel) { forall b <- k.cache :: k.cache[b].dirty }

  lemma EvictOne(lay: Layout, init: Disk, s: State, b: nat)
    requires Committing(lay, init, s) && b in s.k.cache && !s.k.cache[b].dirty
    ensures Enabled(lay, s, Evict(b)) && Committing(lay, init, Next(lay, s, Evict(b))) && HeaderFits(lay, s)
    ensures var r := Next(lay, s, Evict(b)); r == s.(k := s.k.(cache := s.k.cache - {b}))
  {
    hide Inv;
    NobodyElse(lay, init, s);
    assert Enabled(lay, s, Evict(b));
    StepKeeps(lay, init, s, Evict(b));
  }

  lemma NobodyElse(lay: Layout, init: Disk, s: State)
    requires Inv(lay, init, s) && (s.pc.Logging? || s.pc.Installing?)
    ensures s.active == [] && HeaderFits(lay, s)
  {
    hide TxnInv, ViewIs, Coherent, SameData, Clean, LogHolds, Complete, Installed, Pinned;
  }

  /** All clean buffers can be recycled. */
  lemma {:induction false} EvictClean(lay: Layout, init: Disk, s: State) returns (steps: seq<Step>)
    requires Committing(lay, init, s)
    ensures FittingRun(lay, s, steps) && NoCrash(steps)
    ensures var r := After(lay, s, steps);
            Committing(lay, init, r) && AllDirty(r.k) && r == s.(k := s.k.(cache := r.k.cache))
    decreases |s.k.cache.Keys|
  {
    hide Inv, Enabled, Next;
    NobodyElse(lay, init, s);
    if AllDirty(s.k) {
      steps := [];
    } else {
      var b :| b in s.k.cache && !s.k.cache[b].dirty;
      EvictOne(lay, init, s, b);
      assert (s.k.cache - {b}).Keys == s.k.cache.Keys - {b};
      var rest := EvictClean(lay, init, Next(lay, s, Evict(b)));
      steps := [Evict(b)] + rest;
      assert steps[1..] == rest;
    }
  }

  /** The committer's next step. */
  function NextWrite(s: State): Step {
    match s.pc
    case Logging(k) => if k < |s.k.lh| then LogBlock else CommitHead
    case Installing(k) => if k < |s.k.lh| then InstallBlock else ClearHead
    case _ => Close
  }

  /** With only pinned blocks cached there is a buffer for one block more. */
  lemma OneMore(k: Kernel, b: nat, n: nat)
    requires AllDirty(k) && Pinned(k, n) && |k.lh| < NBUF
    ensures HasBuffers(k, {b})
  {
    assert k.cache.Keys <= (set c <- k.lh);
    HeaderCard(k.lh, k.cache.Keys);
  }

  lemma {:induction false} HeaderCard(hdr: seq<nat>, keys: set<nat>)
    requires forall c <- keys :: c in hdr
    ensures |keys| <= |hdr|
    decreases |hdr|
  {
    if hdr != [] {
      var n := |hdr| - 1;
      HeaderCard(hdr[..n], keys - {hdr[n]});
    }
  }

  /** What the invariant says about the committer's program points. */
  lemma CommitterAt(lay: Layout, init: Disk, s: State)
    requires Inv(lay, init, s) && (s.pc.Logging? || s.pc.Installing?)
    ensures Fits(lay, s.k.disk) && Named(lay, s.k.disk, s.k.lh) && s.pc.k <= |s.k.lh|
    ensures Pinned(s.k, if s.pc.Logging? then 0 else s.pc.k) && Words(s.k.lh)
    ensures |s.k.lh| < NBUF ==> |s.k.lh| < lay.size
  {
    hide TxnInv, HistoryInv, ViewIs, Coherent, SameData, Clean, Pinned, NoDup;
  }

  lemma WriteEnabled(lay: Layout, init: Disk, s: State)
    requires Committing(lay, init, s) && AllDirty(s.k)
    ensures Enabled(lay, s, NextWrite(s))
  {
    hide Inv, HasBuffers, CopyBuffers, Pinned, AllDirty;
    CommitterAt(lay, init, s);
    var n := if s.pc.Logging? then 0 else s.pc.k;
    OneMore(s.k, lay.start, n);
    if s.pc.k < |s.k.lh| {
      TwoMore(lay, s.k, s.pc.k, n);
    }
  }

  lemma TwoMore(lay: Layout, k: Kernel, t: nat, n: nat)
    requires AllDirty(k) && Pinned(k, n) && |k.lh| < NBUF && n <= t < |k.lh|
    ensures CopyBuffers(lay, k, t)
  {
    var b, c := lay.start + 1 + t, k.lh[t];
    OneMore(k, b, n);
    assert k.cache.Keys + {b, c} == k.cache.Keys + {b};
  }

  lemma WriteStep(lay: Layout, init: Disk, s: State)
    requires Committing(lay, init, s) && Enabled(lay, s, NextWrite(s))
    ensures var r := Next(lay, s, NextWrite(s));
            && HeaderFits(lay, s) && HeaderFits(lay, r) && Inv(lay, init, r)
            && (r.pc == Closing || (Committing(lay, init, r) && Left(r) == Left(s) - 1))
            && r.commits == (if s.pc.Logging? && r.pc.Installing? then s.commits + [s.txn] else s.commits)
            && (s.pc.Logging? ==> r.pc != Closing) && (r.pc.Logging? ==> s.pc.Logging? && r.txn == s.txn)
  {
    NobodyElse(lay, init, s);
    CommitterAt(lay, init, s);
    hide Inv, View, PutHead, CopyBuffers, HasBuffers;
    StepKeeps(lay, init, s, NextWrite(s));
  }

  lemma {:induction false} RunConcat(lay: Layout, s: State, a: seq<Step>, b: seq<Step>)
    requires FittingRun(lay, s, a) && FittingRun(lay, After(lay, s, a), b)
    ensures FittingRun(lay, s, a + b) && After(lay, s, a + b) == After(lay, After(lay, s, a), b)
    decreases |a|
  {
    hide Next, Enabled, HeaderFits;
    if a == [] {
      assert a + b == b;
    } else {
      assert (a + b)[1..] == a[1..] + b;
      RunConcat(lay, Next(lay, s, a[0]), a[1..], b);
    }
  }

  /** The transaction that is on disk when the commit is over. */
  ghost function Outcome(s: State): seq<seq<BlockWrite>> {
    if s.pc.Logging? then s.commits + [s.txn] else s.commits
  }

  /** A commit with fewer blocks than buffers can be carried to its end. */
  lemma {:induction false} CommitRun(lay: Layout, init: Disk, s: State) returns (steps: seq<Step>)
    requires Committing(lay, init, s)
    ensures FittingRun(lay, s, steps) && NoCrash(steps)
    ensures After(lay, s, steps).pc == Closing && After(lay, s, steps).commits == Outcome(s)
    decreases Left(s)
  {
    hide Inv, Enabled, Next, AllDirty;
    CommitterAt(lay, init, s);
    var before := EvictClean(lay, init, s);
    var t := After(lay, s, before);
    WriteEnabled(lay, init, t);
    WriteStep(lay, init, t);
    var step := NextWrite(t);
    var r := Next(lay, t, step);
    assert Outcome(t) == if r.pc == Closing then r.commits else Outcome(r);
    var rest := [];
    if r.pc != Closing {
      rest := CommitRun(lay, init, r);
    }
    assert ([step] + rest)[1..] == rest;
    assert After(lay, t, [step] + rest) == After(lay, r, rest);
    RunConcat(lay, s, before, [step] + rest);
    steps := before + ([step] + rest);
  }

  /** Left to itself, the commit of a header finishes if and only if the header has fewer
      than NBUF blocks. */
  lemma CommitIff(lay: Layout, init: Disk, s: State)
    requires Inv(lay, init, s) && s.pc == Logging(0) && s.refs == multiset{}
    ensures |s.k.lh| < NBUF <==> exists steps :: Run(lay, s, steps) && NoCrash(steps) && After(lay, s, steps).pc == Closing
  {
    hide Inv, Enabled, Next;
    if |s.k.lh| < NBUF {
      var steps := CommitRun(lay, init, s);
    } else {
      FullHeaderJams(lay, init, s);
      forall steps | Run(lay, s, steps) && NoCrash(steps) ensures After(lay, s, steps).pc != Closing {
        JammedRun(lay, s, steps);
      }
    }
  }
}
