/** Log-space accounting: begin_op reserves MAXOPBLOCKS blocks for each operation. When
    operations keep to that, group commit is safe exactly on log areas of at least NBUF
    blocks -- on smaller ones two operations can pass log_write's guard together, and on the
    others a header that fills all buffers stops the commit before it writes anything. */
module Reservation {
  import opened Blocks
  import opened RedoLog
  import opened LogState
  import opened GroupCommit

  /** The blocks an operation has logged or is about to. */
  function Claimed(op: Op): (r: set<nat>) {
    BlocksOf(op.writes) + if op.pending.Passed? then {op.pending.block} else {}
  }

  /** Reserved and not yet recorded by an operation. */
  function UnspentBy(op: Op): (n: int) {
    MAXOPBLOCKS - |BlocksOf(op.writes)|
  }

  function Unspent(active: seq<Op>): (n: int) {
    if active == [] then 0 else UnspentBy(active[0]) + Unspent(active[1..])
  }

  /** Every outstanding operation has claimed at most MAXOPBLOCKS distinct blocks. */
  ghost predicate WithinBudget(s: State) {
    forall i :: 0 <= i < |s.active| ==> |Claimed(s.active[i])| <= MAXOPBLOCKS
  }

  ghost predicate Accounted(s: State) {
    |s.k.lh| + Unspent(s.active) <= LOGSIZE
  }

  lemma ClaimedSize(op: Op)
    ensures |BlocksOf(op.writes)| <= |Claimed(op)|
    ensures op.pending.Passed? && op.pending.block !in BlocksOf(op.writes) ==> |Claimed(op)| == |BlocksOf(op.writes)| + 1
  {
  }

  lemma {:induction false} UnspentBounds(active: seq<Op>)
    requires forall i :: 0 <= i < |active| ==> UnspentBy(active[i]) >= 0
    ensures 0 <= Unspent(active) <= |active| * MAXOPBLOCKS
    ensures forall i :: 0 <= i < |active| ==> UnspentBy(active[i]) <= Unspent(active)
  {
    if active != [] {
      UnspentBounds(active[1..]);
      assert forall i :: 1 <= i < |active| ==> active[i] == active[1..][i - 1];
    }
  }

  lemma BudgetBounds(s: State)
    requires WithinBudget(s)
    ensures 0 <= Unspent(s.active) <= |s.active| * MAXOPBLOCKS
    ensures forall i :: 0 <= i < |s.active| ==> 0 <= UnspentBy(s.active[i]) <= Unspent(s.active)
  {
    forall i | 0 <= i < |s.active| ensures UnspentBy(s.active[i]) >= 0 {
      ClaimedSize(s.active[i]);
    }
    UnspentBounds(s.active);
  }

  lemma {:induction false} UnspentConcat(a: seq<Op>, b: seq<Op>)
    ensures Unspent(a + b) == Unspent(a) + Unspent(b)
  {
    if a == [] {
      assert a + b == b;
    } else {
      UnspentConcat(a[1..], b);
      assert (a + b)[1..] == a[1..] + b;
    }
  }

  /** Replacing or dropping entry j changes the sum by that entry alone. */
  lemma UnspentAt(active: seq<Op>, j: nat, op: Op)
    requires j < |active|
    ensures Unspent(active[j := op]) == Unspent(active) - UnspentBy(active[j]) + UnspentBy(op)
    ensures Unspent(active[..j] + active[j + 1..]) == Unspent(active) - UnspentBy(active[j])
  {
    UnspentConcat(active[..j], active[j + 1..]);
    UnspentConcat([op], active[j + 1..]);
    UnspentConcat([active[j]], active[j + 1..]);
    UnspentConcat(active[..j], [op] + active[j + 1..]);
    UnspentConcat(active[..j], [active[j]] + active[j + 1..]);
    assert active[j := op] == active[..j] + ([op] + active[j + 1..]);
    assert active == active[..j] + ([active[j]] + active[j + 1..]);
  }

  lemma BlocksOne(ws: seq<BlockWrite>, w: BlockWrite)
    ensures BlocksOf(ws + [w]) == BlocksOf(ws) + {w.block}
  {
  }

  lemma {:induction false} OfOpBlocks(ws: seq<BlockWrite>, id: nat)
    ensures BlocksOf(OfOp(ws, id)) <= BlocksOf(ws)
  {
    if ws != [] {
      var front, w := ws[..|ws| - 1], ws[|ws| - 1];
      OfOpBlocks(front, id);
      BlocksOne(front, w);
      BlocksOne(OfOp(front, id), w);
      assert ws == front + [w];
    }
  }

  /** Recording a block new to the header spends one of the operation's own. */
  lemma RecordAccounted(lay: Layout, s: State, j: nat)
    requires HistoryInv(s) && Accounted(s) && Enabled(lay, s, OpRecord(j))
    ensures Accounted(Next(lay, s, OpRecord(j)))
  {
    var op, w := s.active[j], WriteOf(s.active[j]);
    UnspentAt(s.active, j, Op(op.id, op.writes + [w], NoWrite));
    BlocksOne(op.writes, w);
    OfOpBlocks(s.txn, op.id);
    assert w.block in BlocksOf(op.writes) ==> w.block in s.k.lh;
    assert w.block in BlocksOf(op.writes) ==> BlocksOf(op.writes) + {w.block} == BlocksOf(op.writes);
  }

  lemma StepAccounted(lay: Layout, init: Disk, s: State, step: Step)
    requires Inv(lay, init, s) && Accounted(s) && WithinBudget(s) && Enabled(lay, s, step)
    ensures Accounted(Next(lay, s, step))
  {
    hide DiskInv, WithinBudget, PendingInv, BuffersInv, TxnInv, View, PutHead, HasBuffers, CopyBuffers, BufferFree;
    BudgetBounds(s);
    match step
    case BeginOp => UnspentConcat(s.active, [Op(s.nextId, [], NoWrite)]);
    case OpGuard(j, b, data) => UnspentAt(s.active, j, s.active[j].(pending := Passed(b, data)));
    case OpRecord(j) => RecordAccounted(lay, s, j);
    case EndOp(j) => UnspentAt(s.active, j, s.active[j]);
    case _ =>
  }

  // ---------------------------------------------------------------- budgeted runs

  /** A run in which no operation ever claims more than MAXOPBLOCKS distinct blocks. */
  ghost predicate BudgetedRun(lay: Layout, s: State, steps: seq<Step>)
    ensures BudgetedRun(lay, s, steps) ==> Run(lay, s, steps)
    decreases |steps|
  {
    WithinBudget(s) &&
    (steps != [] ==> Enabled(lay, s, steps[0]) && BudgetedRun(lay, Next(lay, s, steps[0]), steps[1..]))
  }

  /** A header of this log area outgrows the buffers no later than the area, or the area
      cannot hold any block at all. */
  predicate RoomyLog(lay: Layout) {
    NBUF <= lay.size || lay.size == 1
  }

  /** On such a log area the header of a budgeted run always fits, although the guard of
      log_write is not repeated when a block is recorded. */
  lemma StepFits(lay: Layout, init: Disk, s: State, step: Step)
    requires RoomyLog(lay) && Inv(lay, init, s) && Accounted(s) && WithinBudget(s)
    requires Enabled(lay, s, step) && WithinBudget(Next(lay, s, step))
    ensures HeaderFits(lay, Next(lay, s, step))
  {
    StepAccounted(lay, init, s, step);
    BudgetBounds(Next(lay, s, step));
  }

  lemma {:induction false} RunAccounted(lay: Layout, init: Disk, s: State, steps: seq<Step>)
    requires RoomyLog(lay) && Inv(lay, init, s) && Accounted(s) && BudgetedRun(lay, s, steps)
    ensures FittingRun(lay, s, steps) && Accounted(After(lay, s, steps)) && WithinBudget(After(lay, s, steps))
    decreases |steps|
  {
    if steps != [] {
      var r := Next(lay, s, steps[0]);
      StepFits(lay, init, s, steps[0]);
      StepAccounted(lay, init, s, steps[0]);
      StepKeeps(lay, init, s, steps[0]);
      RunAccounted(lay, init, r, steps[1..]);
    }
  }

  /** Over every budgeted run: the header plus everything still reserved fits the log,
      and log_write of a block its operation can still afford does not panic. */
  lemma ReservationHolds(lay: Layout, d: Disk, steps: seq<Step>)
    requires Clean(lay, d) && LOGSIZE < lay.size && BudgetedRun(lay, Start(lay, d), steps)
    ensures var s := After(lay, Start(lay, d), steps);
            && Accounted(s) && 0 <= Unspent(s.active)
            && (forall j :: 0 <= j < |s.active| && UnspentBy(s.active[j]) > 0 ==> !LogWritePanics(lay, s.k))
  {
    StartInv(lay, d);
    RunAccounted(lay, d, Start(lay, d), steps);
    RunKeeps(lay, d, Start(lay, d), steps);
    BudgetBounds(After(lay, Start(lay, d), steps));
  }

  /** Exactly when the guard of log_write panics, for an outstanding operation, in a run in
      which the header fits. */
  lemma LogWritePanicsIff(lay: Layout, d: Disk, steps: seq<Step>)
    requires Clean(lay, d) && FittingRun(lay, Start(lay, d), steps)
    ensures var s := After(lay, Start(lay, d), steps);
            |s.active| > 0 ==>
              (LogWritePanics(lay, s.k) <==> |s.k.lh| == LOGSIZE || |s.k.lh| == lay.size - 1)
  {
    StartInv(lay, d);
    RunKeeps(lay, d, Start(lay, d), steps);
    FittingEnd(lay, Start(lay, d), steps);
    hide DiskInv, TxnInv, PendingInv, BuffersInv;
  }

  lemma {:induction false} FittingEnd(lay: Layout, s: State, steps: seq<Step>)
    requires FittingRun(lay, s, steps)
    ensures HeaderFits(lay, After(lay, s, steps))
    decreases |steps|
  {
    if steps != [] {
      FittingEnd(lay, Next(lay, s, steps[0]), steps[1..]);
    }
  }

  /** The state a run ends in is safe. */
  ghost predicate SafeAfter(lay: Layout, d: Disk, steps: seq<Step>)
    requires Clean(lay, d)
  {
    Run(lay, Start(lay, d), steps) && Safe(lay, d, After(lay, Start(lay, d), steps))
  }

  lemma BudgetedSafety(lay: Layout, d: Disk, steps: seq<Step>)
    requires Clean(lay, d) && RoomyLog(lay) && BudgetedRun(lay, Start(lay, d), steps)
    ensures SafeAfter(lay, d, steps)
  {
    StartInv(lay, d);
    RunAccounted(lay, d, Start(lay, d), steps);
    GroupCommitSafety(lay, d, steps);
  }

  // ---------------------------------------------------------------- filling the header

  lemma {:induction false} BudgetedSnoc(lay: Layout, s: State, steps: seq<Step>, step: Step)
    requires BudgetedRun(lay, s, steps)
    requires Enabled(lay, After(lay, s, steps), step) && WithinBudget(Next(lay, After(lay, s, steps), step))
    ensures BudgetedRun(lay, s, steps + [step])
    ensures After(lay, s, steps + [step]) == Next(lay, After(lay, s, steps), step)
    decreases |steps|
  {
    if steps == [] {
      assert steps + [step] == [step];
    } else {
      BudgetedSnoc(lay, Next(lay, s, steps[0]), steps[1..], step);
      assert (steps + [step])[1..] == steps[1..] + [step];
    }
  }

  /** Three operations log 30 blocks in turn; the first two keep one block each for last. */
  function OpOf(i: nat): nat {
    if i < 10 then 2 else if i < 19 || i == 28 then 0 else 1
  }

  /** How many of the first n blocks operation j has logged. */
  function CountOf(j: nat, n: nat): nat {
    if n == 0 then 0 else CountOf(j, n - 1) + if OpOf(n - 1) == j then 1 else 0
  }

  lemma {:induction false} CountIs(n: nat)
    requires n <= 30
    ensures CountOf(2, n) == if n < 10 then n else 10
    ensures CountOf(0, n) == if n < 10 then 0 else if n < 19 then n - 10 else if n < 29 then 9 else 10
    ensures CountOf(1, n) == if n < 19 then 0 else if n < 28 then n - 19 else if n < 30 then 9 else 10
  {
    if n > 0 { CountIs(n - 1); }
  }

  ghost predicate FilledOp(op: Op, j: nat, first: nat, n: nat) {
    op.pending == NoWrite && |BlocksOf(op.writes)| == CountOf(j, n) && forall b <- BlocksOf(op.writes) :: b < first + n
  }

  /** Blocks first .. first + n - 1 are in the header, each cached with the given data, and
      no other block is cached. */
  ghost predicate Filled(lay: Layout, d: Disk, s: State, first: nat, n: nat, data: Block) {
    && s.pc.Running? && !s.k.committing && s.k.outstanding == |s.active| == 3 && s.commits == []
    && s.refs == multiset{} && s.k.cache.Keys == Range(first, n)
    && |s.k.disk| == |d| && Clean(lay, s.k.disk)
    && HeaderIs(s.k, first, n, data)
    && (forall j :: 0 <= j < 3 ==> FilledOp(s.active[j], j, first, n))
  }

  ghost predicate HeaderIs(k: Kernel, first: nat, n: nat, data: Block) {
    && |k.lh| == n
    && (forall i :: 0 <= i < n ==> k.lh[i] == first + i && k.lh[i] in k.cache && k.cache[k.lh[i]] == CacheBuf(data, true))
  }

  function Range(first: nat, n: nat): (r: set<nat>)
    ensures |r| == n && forall b: nat :: b in r <==> first <= b < first + n
  {
    if n == 0 then {} else Range(first, n - 1) + {first + n - 1}
  }

  /** With n blocks cached there is a buffer for one more. */
  lemma RangeRoom(k: Kernel, first: nat, n: nat, b: nat)
    requires k.cache.Keys == Range(first, n) && n < NBUF
    ensures HasBuffers(k, {b})
  {
    hide Range;
  }

  /** Where the header's blocks start: one block is left between the log and them. */
  function First(lay: Layout): nat { lay.start + lay.size + 1 }

  /** Fetching a block leaves the header and its blocks alone. */
  lemma FetchHeader(k: Kernel, first: nat, n: nat, data: Block, m: nat)
    requires HeaderIs(k, first, n, data) && k.cache.Keys == Range(first, m) && first + m < |k.disk|
    ensures HeaderIs(Fetch(k, first + m), first, n, data) && Fetch(k, first + m).cache.Keys == Range(first, m + 1)
  {
  }

  lemma RecordHeader(k: Kernel, first: nat, n: nat, data: Block)
    requires HeaderIs(k, first, n, data) && first + n < |k.disk|
    ensures HeaderIs(LogWrite(k, first + n, data), first, n + 1, data)
    ensures first + n in k.cache ==> LogWrite(k, first + n, data).cache.Keys == k.cache.Keys
  {
    assert first + n !in k.lh;
  }

  /** m operations have begun and logged nothing. */
  ghost predicate Begun(lay: Layout, d: Disk, s: State, m: nat) {
    && s.pc.Running? && !s.k.committing && s.k.outstanding == |s.active| == m && s.commits == [] && s.k.lh == []
    && s.refs == multiset{} && s.k.cache.Keys == {}
    && |s.k.disk| == |d| && Clean(lay, s.k.disk)
    && (forall j :: 0 <= j < m ==> s.active[j].writes == [] && s.active[j].pending == NoWrite)
  }

  lemma BegunNone(lay: Layout, d: Disk)
    requires Clean(lay, d)
    ensures WithinBudget(Start(lay, d)) && Enabled(lay, Start(lay, d), ClearHead)
    ensures var s := Next(lay, Start(lay, d), ClearHead);
            && WithinBudget(s) && Enabled(lay, s, Evict(lay.start))
            && Begun(lay, d, Next(lay, s, Evict(lay.start)), 0) && WithinBudget(Next(lay, s, Evict(lay.start)))
  {
    HeadRoundTrip(d[lay.start], []);
  }

  lemma BegunNext(lay: Layout, d: Disk, s: State, m: nat)
    requires Begun(lay, d, s, m) && m < 3
    ensures Enabled(lay, s, BeginOp) && Begun(lay, d, Next(lay, s, BeginOp), m + 1) && WithinBudget(Next(lay, s, BeginOp))
  {
  }

  lemma {:induction false} BeginRun(lay: Layout, d: Disk, m: nat) returns (steps: seq<Step>)
    requires Clean(lay, d) && m <= 3
    ensures BudgetedRun(lay, Start(lay, d), steps) && Begun(lay, d, After(lay, Start(lay, d), steps), m)
  {
    hide Begun, WithinBudget, Next, Enabled;
    var before, step;
    if m == 0 {
      BegunNone(lay, d);
      BudgetedSnoc(lay, Start(lay, d), [], ClearHead);
      before, step := [] + [ClearHead], Evict(lay.start);
    } else {
      before := BeginRun(lay, d, m - 1);
      BegunNext(lay, d, After(lay, Start(lay, d), before), m - 1);
      step := BeginOp;
    }
    BudgetedSnoc(lay, Start(lay, d), before, step);
    steps := before + [step];
  }

  /** The state after operation j passed the guard for block b. */
  ghost function Guarded(s: State, j: nat, b: nat, data: Block): (r: State)
    requires j < |s.active| && b < |s.k.disk|
  {
    s.(k := Fetch(s.k, b), active := s.active[j := s.active[j].(pending := Passed(b, data))])
  }

  lemma GuardBudget(s: State, j: nat, b: nat, data: Block)
    requires j < |s.active| && b < |s.k.disk| && WithinBudget(s) && |BlocksOf(s.active[j].writes)| < MAXOPBLOCKS
    ensures WithinBudget(Guarded(s, j, b, data))
  {
    var op := s.active[j].(pending := Passed(b, data));
    assert |Claimed(op)| <= |BlocksOf(op.writes)| + 1 by {
      ClaimedSize(op);
      assert b in BlocksOf(op.writes) ==> Claimed(op) == BlocksOf(op.writes);
    }
  }

  /** Operation j passes the guard for a block of its budget. */
  lemma GuardOne(lay: Layout, s: State, j: nat, b: nat, data: Block)
    requires s.pc.Running? && j < |s.active| && s.active[j].pending == NoWrite && WithinBudget(s)
    requires b < |s.k.disk| && !InLog(lay, b) && BufferFree(s.active, b) && HasBuffers(s.k, {b}) && !LogWritePanics(lay, s.k)
    requires |BlocksOf(s.active[j].writes)| < MAXOPBLOCKS
    ensures Enabled(lay, s, OpGuard(j, b, data)) && Next(lay, s, OpGuard(j, b, data)) == Guarded(s, j, b, data)
    ensures WithinBudget(Guarded(s, j, b, data))
  {
    hide WithinBudget, BufferFree, HasBuffers, LogWritePanics, Fetch;
    GuardBudget(s, j, b, data);
  }

  /** Operation j records the block it passed the guard for. */
  lemma RecordOne(lay: Layout, s: State, j: nat)
    requires s.pc.Running? && j < |s.active| && s.active[j].pending.Passed? && s.active[j].pending.block < |s.k.disk|
    requires WithinBudget(s)
    ensures Enabled(lay, s, OpRecord(j)) && WithinBudget(Next(lay, s, OpRecord(j)))
    ensures BlocksOf(Next(lay, s, OpRecord(j)).active[j].writes) == BlocksOf(s.active[j].writes) + {s.active[j].pending.block}
  {
    BlocksOne(s.active[j].writes, WriteOf(s.active[j]));
    var op := Next(lay, s, OpRecord(j)).active[j];
    assert Claimed(op) == Claimed(s.active[j]);
  }

  lemma FilledBudget(lay: Layout, d: Disk, s: State, first: nat, n: nat, data: Block)
    requires Filled(lay, d, s, first, n, data) && n <= 30
    ensures WithinBudget(s) && forall b :: BufferFree(s.active, b)
  {
    CountIs(n);
    forall j | 0 <= j < 3 ensures |Claimed(s.active[j])| <= MAXOPBLOCKS {
      assert FilledOp(s.active[j], j, first, n);
      assert Claimed(s.active[j]) == BlocksOf(s.active[j].writes);
    }
  }

  lemma FilledOpNext(op: Op, j: nat, first: nat, n: nat, w: BlockWrite)
    requires FilledOp(op, j, first, n) && w.block == first + n
    ensures FilledOp(if j == OpOf(n) then Op(op.id, op.writes + [w], NoWrite) else op, j, first, n + 1)
  {
    BlocksOne(op.writes, w);
    assert w.block !in BlocksOf(op.writes);
  }

  lemma FilledNext(lay: Layout, d: Disk, s: State, n: nat, data: Block)
    requires Filled(lay, d, s, First(lay), n, data) && n < 30 && First(lay) + n < |s.k.disk|
    requires var step := OpGuard(OpOf(n), First(lay) + n, data);
             Enabled(lay, s, step) && Enabled(lay, Next(lay, s, step), OpRecord(OpOf(n)))
    ensures var r := Next(lay, Next(lay, s, OpGuard(OpOf(n), First(lay) + n, data)), OpRecord(OpOf(n)));
            Filled(lay, d, r, First(lay), n + 1, data) && First(lay) + n in BlocksOf(r.active[OpOf(n)].writes)
  {
    hide HeaderIs, Clean, FilledOp, Range, Fetch, LogWrite, HasBuffers, BufferFree, LogWritePanics;
    var j, b := OpOf(n), First(lay) + n;
    var t := Next(lay, s, OpGuard(j, b, data));
    var r := Next(lay, t, OpRecord(j));
    FetchHeader(s.k, First(lay), n, data, n);
    RecordHeader(t.k, First(lay), n, data);
    forall i | 0 <= i < 3 ensures FilledOp(r.active[i], i, First(lay), n + 1) {
      FilledOpNext(s.active[i], i, First(lay), n, BlockWrite(s.active[i].id, b, data));
    }
    BlocksOne(s.active[j].writes, WriteOf(t.active[j]));
    KeptByFill(s.k, b, data);
  }

  /** Fetching and recording a block change the cache and the header only. */
  lemma KeptByFill(k: Kernel, b: nat, data: Block)
    requires b < |k.disk|
    ensures Fetch(k, b).disk == k.disk && Fetch(k, b).outstanding == k.outstanding && Fetch(k, b).committing == k.committing
    ensures Fetch(k, b).lh == k.lh && b in Fetch(k, b).cache
    ensures var r := LogWrite(Fetch(k, b), b, data);
            r.disk == k.disk && r.outstanding == k.outstanding && r.committing == k.committing
  {
  }

  lemma FilledSize(lay: Layout, d: Disk, s: State, first: nat, n: nat, data: Block)
    requires Filled(lay, d, s, first, n, data)
    ensures |s.k.lh| == n && s.k.cache.Keys == Range(first, n) && forall j :: 0 <= j < 3 ==> s.active[j].pending == NoWrite && |BlocksOf(s.active[j].writes)| == CountOf(j, n)
  {
    forall j | 0 <= j < 3 ensures s.active[j].pending == NoWrite && |BlocksOf(s.active[j].writes)| == CountOf(j, n) {
      assert FilledOp(s.active[j], j, first, n);
    }
  }

  lemma FilledNone(lay: Layout, d: Disk, s: State, data: Block)
    requires Begun(lay, d, s, 3)
    ensures Filled(lay, d, s, First(lay), 0, data)
  {
    assert Range(First(lay), 0) == {};
  }

  lemma FillGuard(lay: Layout, d: Disk, s: State, n: nat, data: Block)
    requires Filled(lay, d, s, First(lay), n, data) && n < 30 && n < lay.size - 1 && First(lay) + 30 <= |d|
    ensures s.pc.Running? && |s.active| == 3 && |s.k.disk| == |d|
    ensures var guard, r := OpGuard(OpOf(n), First(lay) + n, data), Guarded(s, OpOf(n), First(lay) + n, data);
            Enabled(lay, s, guard) && Next(lay, s, guard) == r && WithinBudget(r)
  {
    hide HeaderIs, FilledOp, Clean, WithinBudget, Range, Fetch, CountOf, BlocksOf, HasBuffers, Enabled, Next;
    FilledSize(lay, d, s, First(lay), n, data);
    FilledBudget(lay, d, s, First(lay), n, data);
    CountIs(n);
    RangeRoom(s.k, First(lay), n, First(lay) + n);
    GuardOne(lay, s, OpOf(n), First(lay) + n, data);
  }

  /** The next of the 30 blocks can be logged, and is. */
  lemma FillStep(lay: Layout, d: Disk, s: State, n: nat, data: Block)
    requires Filled(lay, d, s, First(lay), n, data) && n < 30 && n < lay.size - 1 && First(lay) + 30 <= |d|
    ensures var guard, record := OpGuard(OpOf(n), First(lay) + n, data), OpRecord(OpOf(n));
            && Enabled(lay, s, guard) && WithinBudget(Next(lay, s, guard))
            && Enabled(lay, Next(lay, s, guard), record) && WithinBudget(Next(lay, Next(lay, s, guard), record))
            && Filled(lay, d, Next(lay, Next(lay, s, guard), record), First(lay), n + 1, data)
            && First(lay) + n in BlocksOf(Next(lay, Next(lay, s, guard), record).active[OpOf(n)].writes)
  {
    hide Filled, WithinBudget, Fetch, BlocksOf, Enabled, Next;
    FillGuard(lay, d, s, n, data);
    KeptByFill(s.k, First(lay) + n, data);
    RecordOne(lay, Guarded(s, OpOf(n), First(lay) + n, data), OpOf(n));
    FilledNext(lay, d, s, n, data);
  }

  lemma {:induction false} FillRun(lay: Layout, d: Disk, n: nat, data: Block) returns (steps: seq<Step>)
    requires Clean(lay, d) && First(lay) + 30 <= |d| && n <= 30 && n < lay.size
    ensures BudgetedRun(lay, Start(lay, d), steps)
    ensures Filled(lay, d, After(lay, Start(lay, d), steps), First(lay), n, data)
    ensures n > 0 ==> First(lay) + n - 1 in BlocksOf(After(lay, Start(lay, d), steps).active[OpOf(n - 1)].writes)
    decreases n
  {
    hide Filled, Begun, WithinBudget, Next, Enabled;
    if n == 0 {
      steps := BeginRun(lay, d, 3);
      FilledNone(lay, d, After(lay, Start(lay, d), steps), data);
    } else {
      var before := FillRun(lay, d, n - 1, data);
      var guard, record := OpGuard(OpOf(n - 1), First(lay) + n - 1, data), OpRecord(OpOf(n - 1));
      FillStep(lay, d, After(lay, Start(lay, d), before), n - 1, data);
      BudgetedSnoc(lay, Start(lay, d), before, guard);
      BudgetedSnoc(lay, Start(lay, d), before + [guard], record);
      steps := before + [guard] + [record];
    }
  }

  // ---------------------------------------------------------------- where it fails

  /** The guard tests the header before looking for an entry to absorb into, so on every
      log area that can hold a block there is a budgeted run after which an operation that
      logs again a block it has already logged -- needing no new entry -- panics. */
  lemma AbsorbedWriteCanPanic(lay: Layout, d: Disk) returns (steps: seq<Step>, j: nat, b: nat)
    requires Clean(lay, d) && 2 <= lay.size && First(lay) + 30 <= |d|
    ensures BudgetedRun(lay, Start(lay, d), steps)
    ensures var s := After(lay, Start(lay, d), steps);
            && j < |s.active| && LogWritePanics(lay, s.k) && b in s.k.lh && b in BlocksOf(s.active[j].writes)
  {
    var n := if LOGSIZE < lay.size then LOGSIZE else lay.size - 1;
    steps := FillRun(lay, d, n, ZeroBlock);
    j, b := OpOf(n - 1), First(lay) + n - 1;
    var s := After(lay, Start(lay, d), steps);
    assert s.k.lh[n - 1] == b;
  }

  /** On a log area of at most LOGSIZE blocks the reservation is too generous: there is a
      budgeted run after which an operation with budget left panics, whatever it logs. */
  lemma SmallLogPanics(lay: Layout, d: Disk) returns (steps: seq<Step>)
    requires Clean(lay, d) && lay.size <= LOGSIZE && First(lay) + 30 <= |d|
    ensures BudgetedRun(lay, Start(lay, d), steps)
    ensures var s := After(lay, Start(lay, d), steps);
            |s.active| == 3 && UnspentBy(s.active[1]) > 0 && LogWritePanics(lay, s.k)
  {
    steps := FillRun(lay, d, lay.size - 1, ZeroBlock);
    CountIs(lay.size - 1);
    var s := After(lay, Start(lay, d), steps);
    assert FilledOp(s.active[1], 1, First(lay), lay.size - 1);
  }

  // ---------------------------------------------------------------- two guards, then two records

  /** m operations are left of three that have recorded blocks first .. first + n - 1; the
      last end_op starts the commit. */
  ghost predicate Leaving(lay: Layout, d: Disk, s: State, n: nat, m: nat, data: Block) {
    && s.pc == (if m > 0 then Running else Logging(0)) && s.k.committing == (m == 0) && s.k.outstanding == |s.active| == m
    && s.refs == multiset{} && s.k.cache.Keys == Range(First(lay), n)
    && s.commits == [] && |s.k.disk| == |d| && Clean(lay, s.k.disk) && HeaderIs(s.k, First(lay), n, data)
    && WithinBudget(s) && (forall j :: 0 <= j < m ==> s.active[j].pending == NoWrite)
  }

  /** Operations 0 and 1 have both passed the guard for one block each, and the first c of
      the two have recorded it. */
  ghost predicate Racing(lay: Layout, d: Disk, s: State, n: nat, c: nat, data: Block) {
    && s.pc.Running? && !s.k.committing && s.k.outstanding == |s.active| == 3
    && s.refs == multiset{} && s.k.cache.Keys == Range(First(lay), n + 2)
    && s.commits == [] && |s.k.disk| == |d| && Clean(lay, s.k.disk) && HeaderIs(s.k, First(lay), n + c, data)
    && WithinBudget(s) && s.active[2].pending == NoWrite
    && s.active[0].pending == (if c < 1 then Passed(First(lay) + n, data) else NoWrite)
    && s.active[1].pending == (if c < 2 then Passed(First(lay) + n + 1, data) else NoWrite)
  }

  lemma HeaderRoom(lay: Layout, k: Kernel, first: nat, n: nat, data: Block)
    requires HeaderIs(k, first, n, data) && n < lay.size - 1 && n < LOGSIZE && k.outstanding >= 1
    ensures !LogWritePanics(lay, k)
  {
  }

  /** Operation j, with budget left, passes the guard for the next block. */
  lemma RaceGuard(lay: Layout, s: State, j: nat, n: nat, m: nat, data: Block)
    requires s.pc.Running? && j < |s.active| && s.active[j].pending == NoWrite && WithinBudget(s)
    requires BufferFree(s.active, First(lay) + m) && |BlocksOf(s.active[j].writes)| < MAXOPBLOCKS
    requires s.k.outstanding >= 1 && HeaderIs(s.k, First(lay), n, data) && n < lay.size - 1 && n < LOGSIZE
    requires s.k.cache.Keys == Range(First(lay), m) && First(lay) + m < |s.k.disk| && m < NBUF
    ensures Enabled(lay, s, OpGuard(j, First(lay) + m, data))
    ensures var r := Guarded(s, j, First(lay) + m, data);
            && Next(lay, s, OpGuard(j, First(lay) + m, data)) == r
            && WithinBudget(r) && HeaderIs(r.k, First(lay), n, data) && r.k.cache.Keys == Range(First(lay), m + 1)
  {
    hide HeaderIs, WithinBudget, Range, Fetch, HasBuffers, Next, Enabled, BufferFree, LogWritePanics;
    HeaderRoom(lay, s.k, First(lay), n, data);
    RangeRoom(s.k, First(lay), m, First(lay) + m);
    GuardOne(lay, s, j, First(lay) + m, data);
    FetchHeader(s.k, First(lay), n, data, m);
  }

  lemma FreeStill(s: State, t: State, b: nat, c: nat)
    requires |t.active| == |s.active| > 0 && t.active == s.active[0 := t.active[0]] && BufferFree(s.active, c) && b != c
    requires t.active[0].pending.Passed? && t.active[0].pending.block == b
    ensures BufferFree(t.active, c)
  {
  }

  /** With room for one more block, both pass the guard. */
  lemma RaceGuards(lay: Layout, d: Disk, s: State, n: nat, data: Block)
    requires Filled(lay, d, s, First(lay), n, data) && n == lay.size - 2 && n <= 28 && First(lay) + 30 <= |d|
    ensures var g0, g1 := OpGuard(0, First(lay) + n, data), OpGuard(1, First(lay) + n + 1, data);
            && Enabled(lay, s, g0) && WithinBudget(Next(lay, s, g0)) && Enabled(lay, Next(lay, s, g0), g1)
            && Racing(lay, d, Next(lay, Next(lay, s, g0), g1), n, 0, data)
  {
    hide Filled, HeaderIs, WithinBudget, Range, Enabled, Next, BlocksOf, Fetch, Clean, BufferFree, Racing;
    RaceReady(lay, d, s, n, data);
    RaceGuard(lay, s, 0, n, n, data);
    var t := Guarded(s, 0, First(lay) + n, data);
    KeptByFill(s.k, First(lay) + n, data);
    FreeStill(s, t, First(lay) + n, First(lay) + n + 1);
    RaceGuard(lay, t, 1, n, n + 1, data);
    KeptByFill(t.k, First(lay) + n + 1, data);
    RaceStarts(lay, d, s, t, Guarded(t, 1, First(lay) + n + 1, data), n, data);
  }

  /** What the operations that race start from. */
  lemma RaceReady(lay: Layout, d: Disk, s: State, n: nat, data: Block)
    requires Filled(lay, d, s, First(lay), n, data) && n <= 28
    ensures s.pc.Running? && !s.k.committing && s.k.outstanding == |s.active| == 3 && s.commits == [] && s.refs == multiset{}
    ensures |s.k.disk| == |d| && Clean(lay, s.k.disk) && HeaderIs(s.k, First(lay), n, data) && WithinBudget(s)
    ensures s.k.cache.Keys == Range(First(lay), n) && forall b :: BufferFree(s.active, b)
    ensures forall j :: 0 <= j < 3 ==> s.active[j].pending == NoWrite
    ensures forall j :: 0 <= j < 2 ==> |BlocksOf(s.active[j].writes)| < MAXOPBLOCKS
  {
    hide HeaderIs, FilledOp, Clean, WithinBudget, Range, CountOf, BlocksOf, BufferFree;
    FilledBudget(lay, d, s, First(lay), n, data);
    FilledSize(lay, d, s, First(lay), n, data);
    CountIs(n);
  }

  lemma RaceStarts(lay: Layout, d: Disk, s: State, t: State, u: State, n: nat, data: Block)
    requires s.pc.Running? && !s.k.committing && s.k.outstanding == |s.active| == 3 && s.commits == [] && s.refs == multiset{}
    requires |s.k.disk| == |d| && Clean(lay, s.k.disk) && s.active[2].pending == NoWrite
    requires u.k.disk == s.k.disk && u.k.committing == s.k.committing && u.k.outstanding == s.k.outstanding
    requires u.pc == s.pc && u.commits == s.commits && u.refs == s.refs
    requires t.active == s.active[0 := s.active[0].(pending := Passed(First(lay) + n, data))]
    requires u.active == t.active[1 := t.active[1].(pending := Passed(First(lay) + n + 1, data))]
    requires HeaderIs(u.k, First(lay), n, data) && u.k.cache.Keys == Range(First(lay), n + 2) && WithinBudget(u)
    ensures Racing(lay, d, u, n, 0, data)
  {
    hide HeaderIs, WithinBudget, Range, Clean;
  }

  lemma RaceRecord(lay: Layout, d: Disk, s: State, n: nat, c: nat, data: Block)
    requires Racing(lay, d, s, n, c, data) && c < 2 && First(lay) + n + 2 <= |d|
    ensures Enabled(lay, s, OpRecord(c)) && Racing(lay, d, Next(lay, s, OpRecord(c)), n, c + 1, data)
  {
    hide HeaderIs, Claimed, Clean, WithinBudget, Range;
    RecordOne(lay, s, c);
    RecordHeader(s.k, First(lay), n + c, data);
  }

  lemma RaceOver(lay: Layout, d: Disk, s: State, n: nat, c: nat, data: Block)
    requires Racing(lay, d, s, n, c, data)
    ensures WithinBudget(s) && (c == 2 ==> Leaving(lay, d, s, n + 2, 3, data))
  {
    hide HeaderIs, WithinBudget, Range, Clean;
  }

  lemma RaceRun(lay: Layout, d: Disk, c: nat, data: Block) returns (steps: seq<Step>)
    requires Clean(lay, d) && 2 <= lay.size <= LOGSIZE && First(lay) + 30 <= |d| && c <= 2
    ensures BudgetedRun(lay, Start(lay, d), steps)
    ensures Racing(lay, d, After(lay, Start(lay, d), steps), lay.size - 2, c, data)
  {
    hide Filled, Racing, WithinBudget, Next, Enabled;
    var s0, n := Start(lay, d), lay.size - 2;
    if c == 0 {
      var before := FillRun(lay, d, n, data);
      var g0, g1 := OpGuard(0, First(lay) + n, data), OpGuard(1, First(lay) + n + 1, data);
      RaceGuards(lay, d, After(lay, s0, before), n, data);
      BudgetedSnoc(lay, s0, before, g0);
      RaceOver(lay, d, Next(lay, After(lay, s0, before + [g0]), g1), n, 0, data);
      BudgetedSnoc(lay, s0, before + [g0], g1);
      steps := before + [g0] + [g1];
    } else {
      var before := RaceRun(lay, d, c - 1, data);
      RaceRecord(lay, d, After(lay, s0, before), n, c - 1, data);
      RaceOver(lay, d, Next(lay, After(lay, s0, before), OpRecord(c - 1)), n, c, data);
      BudgetedSnoc(lay, s0, before, OpRecord(c - 1));
      steps := before + [OpRecord(c - 1)];
    }
  }

  /** How far three operations within their budgets can fill the header. */
  function Peak(lay: Layout): nat { if lay.size <= LOGSIZE then lay.size else LOGSIZE }

  lemma FilledLeaving(lay: Layout, d: Disk, s: State, n: nat, data: Block)
    requires Filled(lay, d, s, First(lay), n, data) && n <= 30
    ensures Leaving(lay, d, s, n, 3, data)
  {
    FilledBudget(lay, d, s, First(lay), n, data);
  }

  lemma PeakRun(lay: Layout, d: Disk, data: Block) returns (steps: seq<Step>)
    requires Clean(lay, d) && 2 <= lay.size && First(lay) + 30 <= |d|
    ensures BudgetedRun(lay, Start(lay, d), steps)
    ensures Leaving(lay, d, After(lay, Start(lay, d), steps), Peak(lay), 3, data)
  {
    hide Filled, Racing, Leaving, WithinBudget, Next, Enabled;
    if lay.size <= LOGSIZE {
      steps := RaceRun(lay, d, 2, data);
      RaceOver(lay, d, After(lay, Start(lay, d), steps), lay.size - 2, 2, data);
    } else {
      steps := FillRun(lay, d, LOGSIZE, data);
      FilledLeaving(lay, d, After(lay, Start(lay, d), steps), LOGSIZE, data);
    }
  }

  lemma LeavingBudget(lay: Layout, d: Disk, s: State, n: nat, m: nat, data: Block)
    requires Leaving(lay, d, s, n, m, data)
    ensures WithinBudget(s)
  {
  }

  lemma LeaveStep(lay: Layout, d: Disk, s: State, n: nat, m: nat, data: Block)
    requires Leaving(lay, d, s, n, m, data) && 0 < m && 0 < n
    ensures Enabled(lay, s, EndOp(0)) && Leaving(lay, d, Next(lay, s, EndOp(0)), n, m - 1, data)
  {
  }

  lemma {:induction false} LeaveRun(lay: Layout, d: Disk, m: nat, data: Block) returns (steps: seq<Step>)
    requires Clean(lay, d) && 2 <= lay.size && First(lay) + 30 <= |d| && m <= 3
    ensures BudgetedRun(lay, Start(lay, d), steps)
    ensures Leaving(lay, d, After(lay, Start(lay, d), steps), Peak(lay), m, data)
    decreases 3 - m
  {
    hide Racing, Leaving, WithinBudget, Next, Enabled;
    if m == 3 {
      steps := PeakRun(lay, d, data);
    } else {
      var before := LeaveRun(lay, d, m + 1, data);
      var s := After(lay, Start(lay, d), before);
      LeaveStep(lay, d, s, Peak(lay), m + 1, data);
      LeavingBudget(lay, d, Next(lay, s, EndOp(0)), Peak(lay), m, data);
      BudgetedSnoc(lay, Start(lay, d), before, EndOp(0));
      steps := before + [EndOp(0)];
    }
  }

  /** write_log has copied t of the header's n blocks. */
  ghost predicate Copied(lay: Layout, d: Disk, s: State, n: nat, t: nat, data: Block) {
    && s.pc == Logging(t) && t <= n && s.active == [] && s.commits == [] && |s.k.disk| == |d|
    && s.refs == multiset{} && s.k.cache.Keys == Range(First(lay), n)
    && Clean(lay, s.k.disk) && HeaderIs(s.k, First(lay), n, data)
    && lay.start + t < |d| && (t > 0 ==> s.k.disk[lay.start + t] == data)
  }

  /** The next block is copied, and the log block's buffer is given back. */
  lemma CopyOne(lay: Layout, d: Disk, s: State, n: nat, t: nat, data: Block)
    requires Copied(lay, d, s, n, t, data) && t < n <= lay.size && n < NBUF && First(lay) + n <= |d|
    ensures Enabled(lay, s, LogBlock) && WithinBudget(Next(lay, s, LogBlock))
    ensures Enabled(lay, Next(lay, s, LogBlock), Evict(lay.start + 1 + t))
    ensures var r := Next(lay, Next(lay, s, LogBlock), Evict(lay.start + 1 + t));
            WithinBudget(r) && Copied(lay, d, r, n, t + 1, data)
  {
    hide CopyBuffers, HasBuffers, Range, Copied, View, StoreBlock;
    var b := lay.start + 1 + t;
    CopyEnabled(lay, d, s, n, t, data);
    var r := s.(k := StoreBlock(s.k, b, data), pc := Logging(t + 1));
    assert Next(lay, s, LogBlock) == r;
    hide Enabled, Next;
    EvictStored(lay, s, r, b, data, t);
    CopiedNext(lay, d, s, n, t, data);
  }

  lemma EvictStored(lay: Layout, s: State, r: State, b: nat, data: Block, t: nat)
    requires s.active == [] && s.refs == multiset{} && b < |s.k.disk|
    requires r == s.(k := StoreBlock(s.k, b, data), pc := Logging(t + 1))
    ensures Enabled(lay, r, Evict(b)) && Next(lay, r, Evict(b)) == r.(k := r.k.(cache := r.k.cache - {b}))
    ensures WithinBudget(r) && WithinBudget(Next(lay, r, Evict(b)))
  {
  }

  lemma CopyEnabled(lay: Layout, d: Disk, s: State, n: nat, t: nat, data: Block)
    requires Copied(lay, d, s, n, t, data) && t < n <= lay.size && n < NBUF && First(lay) + n <= |d|
    ensures Enabled(lay, s, LogBlock) && View(s.k, s.k.lh[t]) == data && s.pc == Logging(t) && s.active == [] && s.refs == multiset{}
  {
    var keys, b := s.k.cache.Keys, lay.start + 1 + t;
    assert s.k.lh[t] == First(lay) + t;
    assert keys + {b, s.k.lh[t]} == keys + {b};
  }

  lemma CopiedNext(lay: Layout, d: Disk, s: State, n: nat, t: nat, data: Block)
    requires Copied(lay, d, s, n, t, data) && t < n <= lay.size && First(lay) + n <= |d|
    ensures var k := StoreBlock(s.k, lay.start + 1 + t, data);
            Copied(lay, d, s.(k := k.(cache := k.cache - {lay.start + 1 + t}), pc := Logging(t + 1)), n, t + 1, data)
  {
    var b := lay.start + 1 + t;
    var k := StoreBlock(s.k, b, data);
    assert b !in s.k.cache.Keys;
    assert k.cache.Keys - {b} == s.k.cache.Keys;
  }

  lemma CopiedNone(lay: Layout, d: Disk, s: State, n: nat, data: Block)
    requires Clean(lay, d) && Leaving(lay, d, s, n, 0, data)
    ensures Copied(lay, d, s, n, 0, data)
  {
  }

  lemma {:induction false} CopyRun(lay: Layout, d: Disk, t: nat, data: Block) returns (steps: seq<Step>)
    requires Clean(lay, d) && 2 <= lay.size < NBUF && First(lay) + 30 <= |d| && t <= lay.size
    ensures BudgetedRun(lay, Start(lay, d), steps)
    ensures Copied(lay, d, After(lay, Start(lay, d), steps), lay.size, t, data)
    decreases t
  {
    hide Leaving, Copied, WithinBudget, Next, Enabled;
    if t == 0 {
      steps := LeaveRun(lay, d, 0, data);
      CopiedNone(lay, d, After(lay, Start(lay, d), steps), lay.size, data);
    } else {
      var before := CopyRun(lay, d, t - 1, data);
      CopyOne(lay, d, After(lay, Start(lay, d), before), lay.size, t - 1, data);
      BudgetedSnoc(lay, Start(lay, d), before, LogBlock);
      BudgetedSnoc(lay, Start(lay, d), before + [LogBlock], Evict(lay.start + t));
      steps := before + [LogBlock] + [Evict(lay.start + t)];
    }
  }

  lemma CopiedUnsafe(lay: Layout, d: Disk, s: State, data: Block)
    requires Copied(lay, d, s, lay.size, lay.size, data) && 2 <= lay.size && lay.start + lay.size < |d|
    requires data != d[lay.start + lay.size]
    ensures !Safe(lay, d, s)
  {
    hide HeaderIs;
    RecoverClean(lay, s.k.disk);
    assert ApplyCommits(d, s.commits) == d;
    assert s.k.disk[lay.start + lay.size] == data;
  }

  /** On a log area of 2 to NBUF - 1 blocks there is a budgeted run that destroys data:
      write_log overwrites the home block behind the log, which no operation has touched,
      so that a crash then does not bring the committed state back. */
  lemma RaceLosesData(lay: Layout, d: Disk) returns (steps: seq<Step>)
    requires Clean(lay, d) && 2 <= lay.size < NBUF && First(lay) + 30 <= |d|
    ensures BudgetedRun(lay, Start(lay, d), steps) && !SafeAfter(lay, d, steps)
  {
    hide Copied, Next, Enabled, WithinBudget, Safe;
    var victim := lay.start + lay.size;
    var data := d[victim][0 := if d[victim][0] == 0 then 1 else 0];
    assert data[0] != d[victim][0];
    steps := CopyRun(lay, d, lay.size, data);
    CopiedUnsafe(lay, d, After(lay, Start(lay, d), steps), data);
  }

  /** On a log area of at least NBUF blocks there is a budgeted run that pins every buffer;
      the commit then panics at its first block. */
  lemma FullCachePanics(lay: Layout, d: Disk) returns (steps: seq<Step>)
    requires Clean(lay, d) && NBUF <= lay.size && First(lay) + 30 <= |d|
    ensures BudgetedRun(lay, Start(lay, d), steps)
    ensures var s := After(lay, Start(lay, d), steps); s.pc == Logging(0) && BgetPanics(s, lay.start + 1)
  {
    hide Leaving, WithinBudget, Next, Enabled, BgetPanics;
    steps := LeaveRun(lay, d, 0, ZeroBlock);
    LeftFull(lay, d, After(lay, Start(lay, d), steps), ZeroBlock);
  }

  lemma LeftFull(lay: Layout, d: Disk, s: State, data: Block)
    requires Leaving(lay, d, s, NBUF, 0, data)
    ensures s.pc == Logging(0) && BgetPanics(s, lay.start + 1)
  {
    hide WithinBudget;
    forall b <- s.k.cache ensures s.k.cache[b].dirty {
      assert s.k.lh[b - First(lay)] == b;
    }
  }

  /** Budgeted runs are safe, all of them, if and only if the log area has at least NBUF
      blocks or cannot hold any block at all. */
  lemma SafetyIff(lay: Layout, d: Disk)
    requires Clean(lay, d) && First(lay) + 30 <= |d|
    ensures RoomyLog(lay) <==> forall steps :: BudgetedRun(lay, Start(lay, d), steps) ==> SafeAfter(lay, d, steps)
  {
    if RoomyLog(lay) {
      forall steps | BudgetedRun(lay, Start(lay, d), steps) ensures SafeAfter(lay, d, steps) {
        BudgetedSafety(lay, d, steps);
      }
    } else {
      var steps := RaceLosesData(lay, d);
    }
  }
}
