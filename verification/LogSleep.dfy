/** Sleeping in begin_op: a process that is not admitted sleeps on the log until end_op wakes
    everyone there.  The log's own steps are those of GroupCommit. */
module LogSleep {
  import opened Blocks
  import opened RedoLog
  import opened LogState
  import opened GroupCommit

  /** The log, and the processes asleep in begin_op. */
  datatype World = World(s: State, asleep: set<nat>)

  datatype Move =
    | Log(step: Step)
    | Doze(p: nat)      // begin_op of process p finds no room, or a commit under way

  predicate MayMove(lay: Layout, w: World, mv: Move) {
    match mv
    case Log(step) => Enabled(lay, w.s, step) && HeaderFits(lay, Next(lay, w.s, step))
    case Doze(_) => !w.s.pc.Recovering? && !MayBegin(w.s.k)
  }

  /** end_op wakes the sleepers: at once if other operations are outstanding, otherwise when
      its commit is over.  After a crash there are none. */
  predicate Wakes(s: State, step: Step) {
    (step.EndOp? && s.k.outstanding != 1) || step.Close? || step.Crash?
  }

  function Moved(lay: Layout, w: World, mv: Move): (r: World)
    requires MayMove(lay, w, mv)
  {
    match mv
    case Log(step) => World(Next(lay, w.s, step), if Wakes(w.s, step) then {} else w.asleep)
    case Doze(p) => w.(asleep := w.asleep + {p})
  }

  /** Whoever sleeps could not be admitted; before recovery is over nobody does; and with
      nothing outstanding and no commit under way the header is empty. */
  ghost predicate Attended(w: World) {
    && (w.asleep != {} ==> !MayBegin(w.s.k) && !w.s.pc.Recovering?)
    && (w.s.pc.Running? && w.s.active == [] ==> w.s.k.lh == [])
  }

  /** Only a step that wakes makes room for another operation. */
  lemma RoomOnlyByWaking(lay: Layout, init: Disk, s: State, step: Step)
    requires Inv(lay, init, s) && Enabled(lay, s, step) && !s.pc.Recovering? && !MayBegin(s.k) && !Wakes(s, step)
    ensures !MayBegin(Next(lay, s, step).k) && !Next(lay, s, step).pc.Recovering?
  {
    hide HistoryInv, PendingInv, BuffersInv, View, PutHead, HasBuffers, CopyBuffers, BufferFree, LogWritePanics,
      ViewIs, Pinned, Installed, LogHolds, SameData, Clean, Coherent, NoDup, Named, RoomFor;
    if step.OpRecord? {
      var w := WriteOf(s.active[step.j]);
      assert |Absorb(s.k.lh, w.block)| >= |s.k.lh|;
    }
  }

  lemma EmptyWhenIdle(lay: Layout, init: Disk, s: State, step: Step)
    requires Inv(lay, init, s) && Enabled(lay, s, step) && (s.pc.Running? && s.active == [] ==> s.k.lh == [])
    ensures var r := Next(lay, s, step); r.pc.Running? && r.active == [] ==> r.k.lh == []
  {
    hide PendingInv, BuffersInv, View, PutHead, HasBuffers, CopyBuffers, BufferFree, LogWritePanics,
      ViewIs, Pinned, Installed, LogHolds, SameData, Clean, Coherent, NoDup, Named, RoomFor, TxnInv;
  }

  lemma MoveKeeps(lay: Layout, init: Disk, w: World, mv: Move)
    requires Inv(lay, init, w.s) && Attended(w) && MayMove(lay, w, mv)
    ensures Inv(lay, init, Moved(lay, w, mv).s) && Attended(Moved(lay, w, mv))
  {
    hide Inv, Next, Enabled, HeaderFits;
    if mv.Log? {
      StepKeeps(lay, init, w.s, mv.step);
      EmptyWhenIdle(lay, init, w.s, mv.step);
      if !w.s.pc.Recovering? && !MayBegin(w.s.k) && !Wakes(w.s, mv.step) {
        RoomOnlyByWaking(lay, init, w.s, mv.step);
      }
    }
  }

  ghost predicate Moves(lay: Layout, ws: seq<World>, mvs: seq<Move>) {
    && |ws| == |mvs| + 1
    && forall i :: 0 <= i < |mvs| ==> MayMove(lay, ws[i], mvs[i]) && ws[i + 1] == Moved(lay, ws[i], mvs[i])
  }

  lemma {:induction false} MovesKeep(lay: Layout, d: Disk, ws: seq<World>, mvs: seq<Move>, n: nat)
    requires Clean(lay, d) && Moves(lay, ws, mvs) && ws[0] == World(Start(lay, d), {}) && n <= |mvs|
    ensures Inv(lay, d, ws[n].s) && Attended(ws[n])
  {
    hide Inv, MayMove, Moved;
    if n == 0 {
      StartInv(lay, d);
    } else {
      MovesKeep(lay, d, ws, mvs, n - 1);
      MoveKeeps(lay, d, ws[n - 1], mvs[n - 1]);
    }
  }

  /** In every state of every run with sleepers: none of them could be admitted, so that no
      wakeup was lost; and an operation or a commit is under way, whose end will wake them. */
  lemma NoLostBegin(lay: Layout, d: Disk, ws: seq<World>, mvs: seq<Move>, n: nat)
    requires Clean(lay, d) && Moves(lay, ws, mvs) && ws[0] == World(Start(lay, d), {}) && n <= |mvs|
    ensures ws[n].asleep != {} ==> !MayBegin(ws[n].s.k) && (ws[n].s.active != [] || !ws[n].s.pc.Running?)
  {
    MovesKeep(lay, d, ws, mvs, n);
    IdleAdmits(lay, d, ws[n].s);
  }

  lemma IdleAdmits(lay: Layout, init: Disk, s: State)
    requires Inv(lay, init, s)
    ensures s.pc.Running? && s.active == [] && s.k.lh == [] ==> MayBegin(s.k)
  {
    hide TxnInv;
  }
}
