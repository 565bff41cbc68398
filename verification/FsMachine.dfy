/** The file system on top of the log.  Operations run side by side and change inodes and
    blocks as FsShared lets them; every change to a block goes through log_write, the log
    commits them in groups, and the machine may crash at any step.  The disk then always
    recovers to a consistent file system. */
module FsMachine {
  import opened Blocks
  import opened RedoLog
  import opened LogState
  import opened GroupCommit
  import opened FsLayout
  import opened FsOwnership
  import opened FsShared
  import opened CrashConsistency

  /** The log; the file system as its operations see it; and, for an operation inside
      log_write, the change it is logging. */
  datatype World = World(s: State, t: Shared, acts: map<nat, Act>)

  datatype Move =
    | Log(step: Step)             // any step of the log but log_write's guard
    | Write(j: nat, act: Act)     // the j-th outstanding operation has changed a buffer and passes the guard
    | Memory(j: nat, ch: Change)  // it changes an inode in memory

  // ---------------------------------------------------------------- invariant

  /** The disk with all committed transactions and the one in progress. */
  function Current(d: Disk, s: State): (img: Disk) {
    ApplyWrites(ApplyCommits(d, s.commits), s.txn)
  }

  predicate Outstanding(active: seq<Op>, id: nat) {
    exists j :: 0 <= j < |active| && active[j].id == id
  }

  /** Only outstanding operations hold blocks and inode locks. */
  ghost predicate Attended(active: seq<Op>, t: Shared) {
    && (forall c <- t.held :: Outstanding(active, t.held[c]))
    && (forall i <- t.locks :: Outstanding(active, t.locks[i]))
  }

  /** Operations inside log_write write different blocks. */
  ghost predicate Apart(active: seq<Op>) {
    forall i, j :: 0 <= i < j < |active| && active[i].pending.Passed? && active[j].pending.Passed? ==>
      active[i].pending.block != active[j].pending.block
  }

  /** The data is what the change makes of block b, and the operation may make it. */
  ghost predicate Explains(g: Geometry, t: Shared, id: nat, act: Act, b: nat, data: Block)
    requires Sound(g, t)
  {
    Allowed(g, t, id, act) && Target(g, t, id, act) == b && Contents(g, t, id, act) == data
  }

  /** Every write inside log_write is still explained by the change it stands for. */
  ghost predicate Explained(g: Geometry, t: Shared, active: seq<Op>, acts: map<nat, Act>)
    requires Sound(g, t)
  {
    forall j :: 0 <= j < |active| && active[j].pending.Passed? ==>
      active[j].id in acts && Explains(g, t, active[j].id, acts[active[j].id], active[j].pending.block, active[j].pending.data)
  }

  ghost predicate FsInv(g: Geometry, base: Disk, img: Disk, active: seq<Op>, t: Shared, acts: map<nat, Act>) {
    && Sound(g, t) && t.v == img && Consistent(g, base)
    && Attended(active, t) && Apart(active) && Explained(g, t, active, acts)
  }

  ghost predicate WorldInv(lay: Layout, g: Geometry, d: Disk, w: World) {
    && Inv(lay, d, w.s) && LogBeforeInodes(lay, g)
    && FsInv(g, ApplyCommits(d, w.s.commits), Current(d, w.s), w.s.active, w.t, w.acts)
  }

  // ---------------------------------------------------------------- moves

  /** The operation holds no block and no lock. */
  ghost predicate Idle(t: Shared, id: nat) {
    (forall c <- t.held :: t.held[c] != id) && (forall i <- t.locks :: t.locks[i] != id)
  }

  /** An operation ends with nothing held or locked, and changes inodes only outside log_write. */
  ghost predicate MayMove(lay: Layout, g: Geometry, d: Disk, w: World, mv: Move)
    requires WorldInv(lay, g, d, w)
  {
    match mv
    case Log(step) =>
      && !step.OpGuard? && Enabled(lay, w.s, step) && HeaderFits(lay, Next(lay, w.s, step))
      && (step.EndOp? ==> Idle(w.t, w.s.active[step.j].id))
    case Write(j, act) =>
      && j < |w.s.active| && Allowed(g, w.t, w.s.active[j].id, act)
      && Enabled(lay, w.s, GuardOf(g, w, j, act))
    case Memory(j, ch) =>
      j < |w.s.active| && w.s.active[j].pending.NoWrite? && MayChange(g, w.t, w.s.active[j].id, ch)
  }

  /** log_write's guard for the changed buffer. */
  ghost function GuardOf(g: Geometry, w: World, j: nat, act: Act): (step: Step)
    requires Sound(g, w.t) && j < |w.s.active| && Allowed(g, w.t, w.s.active[j].id, act)
  {
    OpGuard(j, Target(g, w.t, w.s.active[j].id, act), Contents(g, w.t, w.s.active[j].id, act))
  }

  /** What is found on a consistent disk: every inode in memory is as on disk. */
  ghost function Found(g: Geometry, img: Disk): (t: Shared)
    requires Consistent(g, img)
  {
    var owner :| Own(g, img, InodesOf(g, img), owner, {});
    Shared(img, InodesOf(g, img), owner, map[], map[])
  }

  lemma FoundSound(g: Geometry, base: Disk)
    requires Consistent(g, base)
    ensures FsInv(g, base, base, [], Found(g, base), map[])
  {
    hide BitsOk, OwnedOk, RefsOk, Explains;
    var t := Found(g, base);
    assert t.held.Keys == {} && t.locks.Keys == {};
  }

  ghost function Moved(lay: Layout, g: Geometry, d: Disk, w: World, mv: Move): (r: World)
    requires WorldInv(lay, g, d, w) && MayMove(lay, g, d, w, mv)
  {
    match mv
    case Log(OpRecord(j)) =>
      World(Next(lay, w.s, OpRecord(j)), Effect(g, w.t, w.s.active[j].id, w.acts[w.s.active[j].id]), w.acts)
    case Log(Crash) => World(Next(lay, w.s, Crash), Found(g, ApplyCommits(d, w.s.commits)), map[])
    case Log(step) => w.(s := Next(lay, w.s, step))
    case Write(j, act) => World(Next(lay, w.s, GuardOf(g, w, j, act)), w.t, w.acts[w.s.active[j].id := act])
    case Memory(j, ch) => w.(t := Changed(g, w.t, w.s.active[j].id, ch))
  }

  // ---------------------------------------------------------------- what moves keep

  /** With nothing outstanding the file system is consistent. */
  lemma QuietConsistent(g: Geometry, t: Shared)
    requires Sound(g, t) && Attended([], t)
    ensures Consistent(g, t.v) && InodesOf(g, t.v) == t.eff
  {
    hide BitsOk, OwnedOk, RefsOk;
    assert t.held.Keys == {} && t.locks.Keys == {};
    assert forall i: nat :: i < g.ninodes ==> IBlock(g, i) < |t.v| && t.eff[i] == InodesOf(g, t.v)[i];
    assert t.eff == InodesOf(g, t.v);
  }

  lemma BeginKeeps(g: Geometry, base: Disk, img: Disk, active: seq<Op>, t: Shared, acts: map<nat, Act>, op: Op)
    requires FsInv(g, base, img, active, t, acts) && op.pending.NoWrite?
    ensures FsInv(g, base, img, active + [op], t, acts)
  {
    hide Sound, Consistent, Explains;
    forall id | Outstanding(active, id) ensures Outstanding(active + [op], id) {
      var j :| 0 <= j < |active| && active[j].id == id;
      assert (active + [op])[j].id == id;
    }
  }

  lemma EndKeeps(g: Geometry, base: Disk, img: Disk, active: seq<Op>, t: Shared, acts: map<nat, Act>, j: nat)
    requires FsInv(g, base, img, active, t, acts) && j < |active| && Idle(t, active[j].id)
    ensures FsInv(g, base, img, active[..j] + active[j + 1..], t, acts)
  {
    hide Sound, Consistent, Explains;
    var rest := active[..j] + active[j + 1..];
    forall id | Outstanding(active, id) && id != active[j].id ensures Outstanding(rest, id) {
      var k :| 0 <= k < |active| && active[k].id == id;
      assert rest[if k < j then k else k - 1].id == id;
    }
    assert forall k :: 0 <= k < |rest| ==> rest[k] == active[if k < j then k else k + 1];
  }

  /** The distinct numbers of outstanding operations. */
  ghost predicate Numbered(active: seq<Op>) {
    forall i, j :: 0 <= i < j < |active| ==> active[i].id != active[j].id
  }

  lemma WriteKeeps(g: Geometry, base: Disk, img: Disk, active: seq<Op>, t: Shared, acts: map<nat, Act>, j: nat, act: Act)
    requires FsInv(g, base, img, active, t, acts) && Numbered(active)
    requires j < |active| && Allowed(g, t, active[j].id, act) && BufferFree(active, Target(g, t, active[j].id, act))
    ensures var b, data := Target(g, t, active[j].id, act), Contents(g, t, active[j].id, act);
            FsInv(g, base, img, active[j := active[j].(pending := Passed(b, data))], t, acts[active[j].id := act])
  {
    hide Sound, Consistent, Allowed, Target, Contents;
    var b, data := Target(g, t, active[j].id, act), Contents(g, t, active[j].id, act);
    OutstandingSame(active, active[j := active[j].(pending := Passed(b, data))]);
  }

  lemma OutstandingSame(a: seq<Op>, b: seq<Op>)
    requires |a| == |b| && forall j :: 0 <= j < |a| ==> a[j].id == b[j].id
    ensures forall id: nat :: Outstanding(a, id) ==> Outstanding(b, id)
  {
    forall id: nat | Outstanding(a, id) ensures Outstanding(b, id) {
      var j :| 0 <= j < |a| && a[j].id == id;
      assert b[j].id == id;
    }
  }

  /** An explained write stays explained in a state that its operation cannot tell apart. */
  lemma ExplainsStill(g: Geometry, t: Shared, r: Shared, id: nat, act: Act, b: nat, data: Block)
    requires Sound(g, t) && Sound(g, r) && Explains(g, t, id, act, b, data) && Alike(t, r, id, b)
    ensures Explains(g, r, id, act, b, data)
  {
    hide Sound, Allowed, Target, Contents, Alike;
    AlikeAct(g, t, r, id, act);
  }

  lemma RecordKeeps(g: Geometry, base: Disk, img: Disk, active: seq<Op>, t: Shared, acts: map<nat, Act>, j: nat, ws: seq<BlockWrite>)
    requires FsInv(g, base, img, active, t, acts) && Numbered(active)
    requires j < |active| && active[j].pending.Passed? && active[j].pending.block < |img|
    ensures active[j].id in acts && Allowed(g, t, active[j].id, acts[active[j].id])
    ensures FsInv(g, base, img[active[j].pending.block := active[j].pending.data], active[j := Op(active[j].id, ws, NoWrite)],
                  Effect(g, t, active[j].id, acts[active[j].id]), acts)
  {
    hide Sound, Consistent, Allowed, Target, Contents, Alike, Effect;
    var id, act, after := active[j].id, acts[active[j].id], active[j := Op(active[j].id, ws, NoWrite)];
    var r := Effect(g, t, id, act);
    ActKeeps(g, t, id, act);
    EffectShape(g, t, id, act, id + 1);
    EffectHolders(g, t, id, act);
    OutstandingSame(active, after);
    assert Outstanding(active, id);
    forall k | 0 <= k < |after| && after[k].pending.Passed?
      ensures Explains(g, r, after[k].id, acts[after[k].id], after[k].pending.block, after[k].pending.data)
    {
      ActFrame(g, t, id, act, active[k].id, active[k].pending.block);
      ExplainsStill(g, t, r, active[k].id, acts[active[k].id], active[k].pending.block, active[k].pending.data);
    }
  }

  lemma MemoryKeeps(g: Geometry, base: Disk, img: Disk, active: seq<Op>, t: Shared, acts: map<nat, Act>, j: nat, ch: Change)
    requires FsInv(g, base, img, active, t, acts) && Numbered(active)
    requires j < |active| && active[j].pending.NoWrite? && MayChange(g, t, active[j].id, ch)
    ensures FsInv(g, base, img, active, Changed(g, t, active[j].id, ch), acts)
  {
    hide Sound, Consistent, Allowed, Target, Contents, Alike, Changed, MayChange;
    var id := active[j].id;
    var r := Changed(g, t, id, ch);
    ChangeKeeps(g, t, id, ch);
    ChangedHolders(g, t, id, ch);
    assert Outstanding(active, id);
    forall k | 0 <= k < |active| && active[k].pending.Passed?
      ensures Explains(g, r, active[k].id, acts[active[k].id], active[k].pending.block, active[k].pending.data)
    {
      ChangeFrame(g, t, id, ch, active[k].id, active[k].pending.block);
      ExplainsStill(g, t, r, active[k].id, acts[active[k].id], active[k].pending.block, active[k].pending.data);
    }
  }

  /** Steps that neither start, end nor change an operation or a transaction. */
  predicate Internal(step: Step) {
    step.LogBlock? || step.InstallBlock? || step.ClearHead? || step.Close? || step.Bread? || step.Brelse? || step.Evict?
  }

  lemma InternalSame(lay: Layout, s: State, step: Step)
    requires Enabled(lay, s, step) && Internal(step)
    ensures var r := Next(lay, s, step); r.active == s.active && r.txn == s.txn && r.commits == s.commits
  {
    hide View, PutHead, Fetch, StoreBlock, HasBuffers, CopyBuffers, BufferFree;
  }

  /** When the header is written no operation is outstanding, and all it wrote is committed. */
  lemma CommitKeeps(lay: Layout, g: Geometry, d: Disk, w: World)
    requires WorldInv(lay, g, d, w) && Enabled(lay, w.s, CommitHead)
    ensures var r := Next(lay, w.s, CommitHead);
            FsInv(g, ApplyCommits(d, r.commits), Current(d, r), r.active, w.t, w.acts)
  {
    hide Inv, Sound, Consistent, Explains;
    CommitMoment(lay, d, w.s);
    ApplyCommit(d, w.s.commits, w.s.txn);
    QuietConsistent(g, w.t);
  }

  lemma WorldFits(lay: Layout, g: Geometry, d: Disk, w: World)
    requires WorldInv(lay, g, d, w)
    ensures Inv(lay, d, w.s) && HeaderFits(lay, w.s)
  {
    hide Inv, FsInv;
    InvNumbered(lay, d, w.s);
  }

  lemma InvNumbered(lay: Layout, d: Disk, s: State)
    requires Inv(lay, d, s)
    ensures Numbered(s.active) && HeaderFits(lay, s) && |s.k.disk| == |d|
  {
    hide TxnInv;
  }

  /** Every log step keeps the file system sound, and with it every committed state. */
  lemma LogKeeps(lay: Layout, g: Geometry, d: Disk, w: World, step: Step)
    requires WorldInv(lay, g, d, w) && MayMove(lay, g, d, w, Log(step))
    ensures WorldInv(lay, g, d, Moved(lay, g, d, w, Log(step)))
  {
    hide Inv, FsInv;
    StepKeeps(lay, d, w.s, step);
    InvNumbered(lay, d, w.s);
    var s, base, img := w.s, ApplyCommits(d, w.s.commits), Current(d, w.s);
    match step
    case BeginOp => BeginKeeps(g, base, img, s.active, w.t, w.acts, Op(s.nextId, [], NoWrite));
    case OpRecord(j) => RecordMoves(lay, g, d, w, j);
    case EndOp(j) => EndKeeps(g, base, img, s.active, w.t, w.acts, j);
    case CommitHead => CommitKeeps(lay, g, d, w);
    case Crash => BaseConsistent(lay, g, d, w); FoundSound(g, base);
    case _ => InternalSame(lay, s, step);
  }

  lemma BaseConsistent(lay: Layout, g: Geometry, d: Disk, w: World)
    requires WorldInv(lay, g, d, w)
    ensures Consistent(g, ApplyCommits(d, w.s.commits))
  {
  }

  lemma RecordMoves(lay: Layout, g: Geometry, d: Disk, w: World, j: nat)
    requires WorldInv(lay, g, d, w) && MayMove(lay, g, d, w, Log(OpRecord(j)))
    ensures var r := Moved(lay, g, d, w, Log(OpRecord(j)));
            FsInv(g, ApplyCommits(d, r.s.commits), Current(d, r.s), r.s.active, r.t, r.acts)
  {
    hide Inv, FsInv, HeaderFits, LogWrite;
    InvNumbered(lay, d, w.s);
    var s, base, img := w.s, ApplyCommits(d, w.s.commits), Current(d, w.s);
    RecordKeeps(g, base, img, s.active, w.t, w.acts, j, s.active[j].writes + [WriteOf(s.active[j])]);
    ApplyOne(base, s.txn, WriteOf(s.active[j]));
  }

  lemma WriteMoves(lay: Layout, g: Geometry, d: Disk, w: World, j: nat, act: Act)
    requires WorldInv(lay, g, d, w) && MayMove(lay, g, d, w, Write(j, act))
    ensures WorldInv(lay, g, d, Moved(lay, g, d, w, Write(j, act)))
    ensures HeaderFits(lay, Next(lay, w.s, GuardOf(g, w, j, act)))
  {
    hide Inv, Allowed, Target, Contents, Sound;
    var step := GuardOf(g, w, j, act);
    hide FsInv, GuardOf;
    InvNumbered(lay, d, w.s);
    StepKeeps(lay, d, w.s, step);
    WriteKeeps(g, ApplyCommits(d, w.s.commits), Current(d, w.s), w.s.active, w.t, w.acts, j, act);
  }

  /** Every move keeps the invariant. */
  lemma MoveKeeps(lay: Layout, g: Geometry, d: Disk, w: World, mv: Move)
    requires WorldInv(lay, g, d, w) && MayMove(lay, g, d, w, mv)
    ensures WorldInv(lay, g, d, Moved(lay, g, d, w, mv))
  {
    match mv
    case Log(step) =>
      hide *;
      LogKeeps(lay, g, d, w, step);
    case Write(j, act) =>
      hide *;
      WriteMoves(lay, g, d, w, j, act);
    case Memory(j, ch) =>
      hide Inv, FsInv, Allowed, Target, Contents;
      InvNumbered(lay, d, w.s);
      MemoryKeeps(g, ApplyCommits(d, w.s.commits), Current(d, w.s), w.s.active, w.t, w.acts, j, ch);
  }

  // ---------------------------------------------------------------- whole runs

  ghost function Begun(lay: Layout, g: Geometry, d: Disk): (w: World)
    requires Clean(lay, d) && Consistent(g, d)
  {
    World(Start(lay, d), Found(g, d), map[])
  }

  lemma BegunInv(lay: Layout, g: Geometry, d: Disk)
    requires Clean(lay, d) && Consistent(g, d) && LogBeforeInodes(lay, g)
    ensures WorldInv(lay, g, d, Begun(lay, g, d))
  {
    hide Inv, FsInv;
    StartInv(lay, d);
    FoundSound(g, d);
  }

  ghost predicate Moves(lay: Layout, g: Geometry, d: Disk, w: World, moves: seq<Move>)
    requires WorldInv(lay, g, d, w)
    decreases |moves|
  {
    moves != [] ==>
      && MayMove(lay, g, d, w, moves[0])
      && (MoveKeeps(lay, g, d, w, moves[0]); Moves(lay, g, d, Moved(lay, g, d, w, moves[0]), moves[1..]))
  }

  /** The step of the log that a move makes, if any. */
  ghost function StepsIn(lay: Layout, g: Geometry, d: Disk, w: World, mv: Move): (steps: seq<Step>)
    requires WorldInv(lay, g, d, w) && MayMove(lay, g, d, w, mv)
  {
    match mv
    case Log(step) => [step]
    case Write(j, act) => [GuardOf(g, w, j, act)]
    case Memory(_, _) => []
  }

  /** The steps of the log in a run. */
  ghost function StepsOf(lay: Layout, g: Geometry, d: Disk, w: World, moves: seq<Move>): (steps: seq<Step>)
    requires WorldInv(lay, g, d, w) && Moves(lay, g, d, w, moves)
    decreases |moves|
  {
    if moves == [] then []
    else
      MoveKeeps(lay, g, d, w, moves[0]);
      StepsIn(lay, g, d, w, moves[0]) + StepsOf(lay, g, d, Moved(lay, g, d, w, moves[0]), moves[1..])
  }

  lemma MoveSteps(lay: Layout, g: Geometry, d: Disk, w: World, mv: Move)
    requires WorldInv(lay, g, d, w) && MayMove(lay, g, d, w, mv)
    ensures var steps, r := StepsIn(lay, g, d, w, mv), Moved(lay, g, d, w, mv);
            if steps == [] then r.s == w.s
            else |steps| == 1 && Enabled(lay, w.s, steps[0]) && r.s == Next(lay, w.s, steps[0])
  {
    hide WorldInv, Next, Enabled, Effect, Found, Changed, GuardOf;
  }

  /** Between operations readers see a consistent file system. */
  lemma QuietImage(lay: Layout, g: Geometry, d: Disk, w: World)
    requires WorldInv(lay, g, d, w) && Quiet(w.s)
    ensures Consistent(g, LogState.Image(w.s.k))
  {
    hide Consistent, Sound, Explains, Explained;
    QuietConsistent(g, w.t);
    OutsideLog(lay, g, w.t.v, LogState.Image(w.s.k));
  }

  lemma RunCons(lay: Layout, s: State, r: State, first: seq<Step>, rest: seq<Step>)
    requires HeaderFits(lay, s) && FittingRun(lay, r, rest)
    requires if first == [] then r == s else |first| == 1 && Enabled(lay, s, first[0]) && r == Next(lay, s, first[0])
    ensures FittingRun(lay, s, first + rest) && After(lay, s, first + rest) == After(lay, r, rest)
  {
    hide HeaderFits, Enabled, Next;
    if first == [] {
      assert first + rest == rest;
    } else {
      assert (first + rest)[1..] == rest;
    }
  }

  /** A run is a run of the log, and whenever it has nothing outstanding readers see a
      consistent file system. */
  lemma {:induction false} QuietPrefix(lay: Layout, g: Geometry, d: Disk, w: World, moves: seq<Move>, n: nat)
    requires WorldInv(lay, g, d, w) && Moves(lay, g, d, w, moves) && n <= |StepsOf(lay, g, d, w, moves)|
    ensures var steps := StepsOf(lay, g, d, w, moves)[..n];
            && FittingRun(lay, w.s, steps)
            && (Quiet(After(lay, w.s, steps)) ==> Consistent(g, LogState.Image(After(lay, w.s, steps).k)))
    decreases |moves|
  {
    hide WorldInv, MayMove, Moved, StepsIn, Next, Enabled, Consistent, Quiet, HeaderFits;
    WorldFits(lay, g, d, w);
    if n == 0 {
      if Quiet(w.s) { QuietImage(lay, g, d, w); }
    } else {
      MoveKeeps(lay, g, d, w, moves[0]);
      MoveSteps(lay, g, d, w, moves[0]);
      var r, first := Moved(lay, g, d, w, moves[0]), StepsIn(lay, g, d, w, moves[0]);
      QuietPrefix(lay, g, d, r, moves[1..], n - |first|);
      var rest := StepsOf(lay, g, d, r, moves[1..]);
      assert (first + rest)[..n] == first + rest[..n - |first|];
      hide FittingRun, After, Run;
      RunCons(lay, w.s, r.s, first, rest[..n - |first|]);
    }
  }

  /** What a run starts from: an empty log in its place, and a consistent file system. */
  ghost predicate Bootable(lay: Layout, g: Geometry, d: Disk) {
    Clean(lay, d) && Consistent(g, d) && LogBeforeInodes(lay, g)
  }

  ghost predicate FsRun(lay: Layout, g: Geometry, d: Disk, moves: seq<Move>)
    requires Bootable(lay, g, d)
  {
    BegunInv(lay, g, d);
    Moves(lay, g, d, Begun(lay, g, d), moves)
  }

  ghost function LogSteps(lay: Layout, g: Geometry, d: Disk, moves: seq<Move>): (steps: seq<Step>)
    requires Bootable(lay, g, d) && FsRun(lay, g, d, moves)
  {
    BegunInv(lay, g, d);
    StepsOf(lay, g, d, Begun(lay, g, d), moves)
  }

  /** Operations that keep to the rules leave the file system consistent between operations. */
  lemma RunsStayConsistent(lay: Layout, g: Geometry, d: Disk, moves: seq<Move>)
    requires Bootable(lay, g, d) && FsRun(lay, g, d, moves)
    ensures FittingRun(lay, Start(lay, d), LogSteps(lay, g, d, moves))
    ensures ConsistentWhenQuiet(lay, g, d, LogSteps(lay, g, d, moves))
  {
    hide Consistent, WorldInv, Moves, StepsOf, Quiet, FittingRun, After, Run;
    BegunInv(lay, g, d);
    var w, steps := Begun(lay, g, d), LogSteps(lay, g, d, moves);
    QuietPrefix(lay, g, d, w, moves, |steps|);
    assert steps[..|steps|] == steps;
    forall n: nat | n <= |steps| && Quiet(At(lay, d, steps, n)) ensures Consistent(g, LogState.Image(At(lay, d, steps, n).k)) {
      QuietPrefix(lay, g, d, w, moves, n);
    }
  }

  /** From a consistent disk with an empty log, whatever operations do within the rules and
      wherever the machine stops: recovery succeeds, the file system it finds is consistent,
      and every file reads as it did on the first disk or at a moment when no operation was
      outstanding. */
  lemma CrashesKeepFiles(lay: Layout, g: Geometry, d: Disk, moves: seq<Move>) returns (img: Disk)
    requires Bootable(lay, g, d) && FsRun(lay, g, d, moves)
    ensures FittingRun(lay, Start(lay, d), LogSteps(lay, g, d, moves))
    ensures WasQuiet(lay, d, LogSteps(lay, g, d, moves), img)
    ensures var crashed := After(lay, Start(lay, d), LogSteps(lay, g, d, moves)).k.disk;
            Recoverable(lay, crashed) && SameFileSystem(g, img, Recovered(lay, crashed))
  {
    hide Consistent, FsRun, LogSteps, FittingRun, ConsistentWhenQuiet, WasQuiet, SameFileSystem, After;
    RunsStayConsistent(lay, g, d, moves);
    img := CrashKeepsFiles(lay, g, d, LogSteps(lay, g, d, moves));
  }
}
